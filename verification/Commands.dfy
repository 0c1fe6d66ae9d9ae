/**
  Workflow commands in a step's output: parsing, the escaping of their data, the state a
  command handler keeps between lines, and the annotations it writes.
 */
module Commands {
  import opened Options
  import LW = LineWriter

  // ---- strings ----

  predicate IsSpace(c: char) {
    || '\t' <= c <= '\r' || c == ' ' || c == '\U{85}' || c == '\U{A0}' || c == '\U{1680}' || '\U{2000}' <= c <= '\U{200A}'
    || c == '\U{2028}' || c == '\U{2029}' || c == '\U{202F}' || c == '\U{205F}' || c == '\U{3000}'
  }

  function TrimRight(s: string, cutset: string): string {
    if s != [] && s[|s| - 1] in cutset then TrimRight(s[..|s| - 1], cutset) else s
  }

  function TrimLeftSpace(s: string): string {
    if s != [] && IsSpace(s[0]) then TrimLeftSpace(s[1..]) else s
  }

  function TrimRightSpace(s: string): string {
    if s != [] && IsSpace(s[|s| - 1]) then TrimRightSpace(s[..|s| - 1]) else s
  }

  function TrimSpace(s: string): string {
    TrimRightSpace(TrimLeftSpace(s))
  }

  function TrimLeftChar(s: string, c: char): string {
    if s != [] && s[0] == c then TrimLeftChar(s[1..], c) else s
  }

  predicate ContainsAny(s: string, chars: string) {
    exists c <- s :: c in chars
  }

  // ---- letter case ----

  /** Lower case of a character, and one representative of each class of characters that differ in case only. */
  datatype CaseTables = CaseTables(lower: char -> char, fold: char -> char)

  function AsciiLower(c: char): char {
    if 'A' <= c <= 'Z' then 'a' + (c - 'A') else c
  }

  /** The characters that mark where a command's name ends. */
  predicate IsMark(c: char) {
    c == ' ' || c == ':' || c == ']' || c == '\r' || c == '\n'
  }

  /** ASCII is lowered as usual, and a mark is no other character's lower case and differs from every other one. */
  ghost predicate Lawful(k: CaseTables) {
    && (forall c :: c < '\U{80}' ==> k.lower(c) == AsciiLower(c))
    && (forall c :: IsMark(k.lower(c)) ==> k.lower(c) == c)
    && (forall c, d :: k.fold(c) == k.fold(d) && IsMark(c) ==> c == d)
  }

  /** Any case tables with these properties, among them those of Unicode. */
  type Casing = k: CaseTables | Lawful(k) witness CaseTables(c => AsciiLower(c), c => AsciiLower(c))

  function Each(f: char -> char, s: string): (r: string)
    ensures |r| == |s| && forall i :: 0 <= i < |s| ==> r[i] == f(s[i])
  {
    seq(|s|, i requires 0 <= i < |s| => f(s[i]))
  }

  function Lower(k: Casing, s: string): string {
    Each(k.lower, s)
  }

  predicate EqualFold(k: Casing, a: string, b: string) {
    Each(k.fold, a) == Each(k.fold, b)
  }

  /** Bytes of the string in UTF-8. */
  function Utf8Length(s: string): nat {
    if s == [] then 0
    else
      var c := s[|s| - 1];
      Utf8Length(s[..|s| - 1]) + if c < '\U{80}' then 1 else if c < '\U{800}' then 2 else if c < '\U{10000}' then 3 else 4
  }

  /** What is before and after the first occurrence of `sep`. */
  datatype Parts = Parts(before: string, after: string, found: bool)

  function Cut(s: string, sep: string): (p: Parts)
    requires sep != ""
    ensures p.found ==> s == p.before + sep + p.after
    ensures !p.found ==> p.before == s && p.after == ""
    decreases |s|
  {
    if sep <= s then Parts("", s[|sep|..], true)
    else if s == [] then Parts("", "", false)
    else
      var rest := Cut(s[1..], sep);
      Parts([s[0]] + rest.before, rest.after, rest.found)
  }

  function SplitAt(s: string, sep: char): seq<string>
    decreases |s|
  {
    var p := Cut(s, [sep]);
    if p.found then [p.before] + SplitAt(p.after, sep) else [s]
  }

  // ---- escaping ----

  /** A replacer's pairs, tried in order at each position; what was written is not read again. */
  type Table = seq<(string, char)>

  const DATA: Table := [("%25", '%'), ("%0D", '\r'), ("%0A", '\n')]
  const PROPERTY: Table := DATA + [("%3A", ':'), ("%2C", ',')]
  const LEGACY: Table := [("%3B", ';'), ("%0D", '\r'), ("%0A", '\n'), ("%5D", ']'), ("%25", '%')]

  function Lookup(table: Table, s: string): (r: Option<(string, char)>)
    ensures r.Some? ==> r.value in table && r.value.0 <= s
    ensures r.None? ==> forall e <- table :: !(e.0 <= s)
  {
    if table == [] then None
    else if table[0].0 <= s then Some(table[0])
    else Lookup(table[1..], s)
  }

  /** Every code of the table starts with a percent sign and has three characters. */
  ghost predicate Coded(table: Table) {
    forall e <- table :: |e.0| == 3 && e.0[0] == '%'
  }

  function Unescape(table: Table, s: string): string
    decreases |s|
  {
    if s == [] then []
    else
      var hit := Lookup(table, s);
      if hit.Some? && |hit.value.0| > 0 then
        [hit.value.1] + Unescape(table, s[|hit.value.0|..])
      else [s[0]] + Unescape(table, s[1..])
  }

  function EscapeChar(c: char): string {
    if c == '%' then "%25" else if c == '\r' then "%0D" else if c == '\n' then "%0A" else [c]
  }

  function EscapeData(s: string): string {
    if s == [] then [] else EscapeChar(s[0]) + EscapeData(s[1..])
  }

  /** No two codes of the table are the same, so that the order of its pairs does not matter. */
  ghost predicate Unambiguous(table: Table) {
    forall d, e :: d in table && e in table && d.0 == e.0 ==> d == e
  }

  /** The table decodes what escaping encodes. */
  ghost predicate Decodes(table: Table) {
    && Coded(table) && Unambiguous(table)
    && ("%25", '%') in table && ("%0D", '\r') in table && ("%0A", '\n') in table
  }

  lemma {:induction false} LookupFinds(table: Table, e: (string, char), s: string)
    requires Coded(table) && Unambiguous(table) && e in table && e.0 <= s
    ensures Lookup(table, s) == Some(e)
  {
    var hit := Lookup(table, s);
    assert hit.Some?;
    assert hit.value.0 == s[..3] == e.0;
  }

  lemma {:induction false} DataDecodes()
    ensures Decodes(DATA)
  {
    assert forall e :: e in DATA <==> e == DATA[0] || e == DATA[1] || e == DATA[2];
    assert DATA[0].0[1] == '2' && DATA[1].0[2] == 'D' && DATA[2].0[2] == 'A';
  }

  lemma {:induction false} PropertyDecodes()
    ensures Decodes(PROPERTY)
  {
    assert forall e :: e in PROPERTY <==> e == PROPERTY[0] || e == PROPERTY[1] || e == PROPERTY[2] || e == PROPERTY[3] || e == PROPERTY[4];
    assert PROPERTY[0] == ("%25", '%') && PROPERTY[1] == ("%0D", '\r') && PROPERTY[2] == ("%0A", '\n');
    assert PROPERTY[0].0[1..] == "25" && PROPERTY[1].0[1..] == "0D" && PROPERTY[2].0[1..] == "0A"
        && PROPERTY[3].0[1..] == "3A" && PROPERTY[4].0[1..] == "2C";
  }

  lemma {:induction false} LegacyDecodes()
    ensures Decodes(LEGACY)
  {
    assert forall e :: e in LEGACY <==> e == LEGACY[0] || e == LEGACY[1] || e == LEGACY[2] || e == LEGACY[3] || e == LEGACY[4];
    assert LEGACY[4].0[1..] == "25" && LEGACY[1].0[1..] == "0D" && LEGACY[2].0[1..] == "0A"
        && LEGACY[0].0[1..] == "3B" && LEGACY[3].0[1..] == "5D";
  }

  /** Unescaping undoes escaping for every string, with every such table. */
  lemma {:induction false} UnescapeEscape(table: Table, s: string)
    requires Decodes(table)
    ensures Unescape(table, EscapeData(s)) == s
  {
    if s != [] {
      UnescapeEscape(table, s[1..]);
      var code, rest := EscapeChar(s[0]), EscapeData(s[1..]);
      var all := code + rest;
      assert EscapeData(s) == all && all[|code|..] == rest && code <= all;
      if |code| == 3 {
        LookupFinds(table, (code, s[0]), all);
      } else {
        assert all[0] == s[0] != '%';
        assert Lookup(table, all).None?;
        assert all[1..] == rest;
      }
      assert s == [s[0]] + s[1..];
    }
  }

  lemma {:induction false} EscapedIsOneLine(s: string)
    ensures !ContainsAny(EscapeData(s), "\r\n")
  {
    if s != [] {
      EscapedIsOneLine(s[1..]);
    }
  }

  // ---- parsing ----

  datatype Command = Command(name: string, properties: map<string, string>, data: string)

  predicate IsLevel(name: string) {
    name == "notice" || name == "warning" || name == "error"
  }

  predicate IsKnown(name: string) {
    || IsLevel(name)
    || name == "stop-commands" || name == "set-env" || name == "set-output" || name == "save-state" || name == "add-path"
    || name == "add-mask" || name == "add-matcher" || name == "remove-matcher"
    || name == "debug" || name == "group" || name == "endgroup" || name == "echo"
  }

  function AddProperty(k: Casing, properties: map<string, string>, property: string, table: Table): map<string, string> {
    var kv := Cut(TrimLeftChar(property, '='), "=");
    if kv.after != "" then properties[Lower(k, kv.before) := Unescape(table, kv.after)] else properties
  }

  function Properties(k: Casing, list: seq<string>, table: Table): map<string, string> {
    if list == [] then map[]
    else AddProperty(k, Properties(k, list[..|list| - 1], table), list[|list| - 1], table)
  }

  /** The header and data of a line in one of the two spellings. */
  function Header(line: string, trimmed: string, legacy: bool): Option<(string, string)> {
    if legacy then
      var start := Cut(line, "##[");
      var p := Cut(start.after, "]");
      if start.found && p.found then Some((p.before, p.after)) else None
    else if "::" <= trimmed then
      var p := Cut(trimmed[2..], "::");
      if p.found then Some((p.before, p.after)) else None
    else None
  }

  /** A command in one spelling: known, or the token that resumes a suspended handler. */
  function ParseForm(k: Casing, line: string, resume: string, legacy: bool): Option<Command> {
    var header := Header(line, TrimLeftSpace(line), legacy);
    if header.None? then None
    else
      var (text, data) := header.value;
      var p := Cut(text, " ");
      var name := Lower(k, p.before);
      if !IsKnown(name) && (resume == "" || !EqualFold(k, name, resume)) then None
      else
        var list := if legacy then p.after else TrimSpace(p.after);
        var table := if legacy then LEGACY else PROPERTY;
        Some(Command(name, Properties(k, SplitAt(list, if legacy then ';' else ','), table),
                     Unescape(if legacy then LEGACY else DATA, data)))
  }

  function Parse(k: Casing, line: string, resume: string): Option<Command> {
    var l := TrimRight(line, "\r\n");
    if ContainsAny(l, "\r\n") then None
    else
      var current := ParseForm(k, l, resume, false);
      if current.Some? then current else ParseForm(k, l, resume, true)
  }

  method ParseProperties(k: Casing, list: seq<string>, table: Table) returns (properties: map<string, string>)
    ensures properties == Properties(k, list, table)
  {
    properties := map[];
    for i := 0 to |list|
      invariant properties == Properties(k, list[..i], table)
    {
      assert list[..i + 1][..i] == list[..i];
      var kv := Cut(TrimLeftChar(list[i], '='), "=");
      if kv.after != "" {
        properties := properties[Lower(k, kv.before) := Unescape(table, kv.after)];
      }
    }
    assert list[..|list|] == list;
  }

  method ParseActionCommand(k: Casing, line: string, resume: string) returns (r: Option<Command>)
    ensures r == Parse(k, line, resume)
  {
    var l := TrimRight(line, "\r\n");
    if ContainsAny(l, "\r\n") {
      return None;
    }
    var trimmed := TrimLeftSpace(l);
    for i := 0 to 2
      invariant i >= 1 ==> ParseForm(k, l, resume, false).None?
      invariant i == 2 ==> ParseForm(k, l, resume, true).None?
    {
      var legacy := i == 1;
      var header := Header(l, trimmed, legacy);
      if header.None? {
        continue;
      }
      var (text, data) := header.value;
      var p := Cut(text, " ");
      var name := Lower(k, p.before);
      if !IsKnown(name) && (resume == "" || !EqualFold(k, name, resume)) {
        continue;
      }
      var list := if legacy then p.after else TrimSpace(p.after);
      var properties := ParseProperties(k, SplitAt(list, if legacy then ';' else ','), if legacy then LEGACY else PROPERTY);
      return Some(Command(name, properties, Unescape(if legacy then LEGACY else DATA, data)));
    }
    return None;
  }

  // ---- annotations ----

  function Property(properties: map<string, string>, name: string): string {
    if name in properties then properties[name] else ""
  }

  /** Location and title of an annotation, put before its message. */
  function AnnotationPrefix(properties: map<string, string>): string {
    var file := Property(properties, "file");
    var line := Property(properties, "line");
    var col := if Property(properties, "col") != "" then Property(properties, "col") else Property(properties, "column");
    var title := Property(properties, "title");
    (if file == "" then ""
     else file + (if line == "" then "" else ":" + line + (if col == "" then "" else ":" + col)) + ": ")
    + (if title == "" then "" else title + ": ")
  }

  function FormatAnnotation(level: string, properties: map<string, string>, message: string): string {
    "::" + level + "::" + EscapeData(AnnotationPrefix(properties) + message)
  }

  /** File, line and column in that order, then the title; a line without a file and a column without a line do not show. */
  lemma {:induction false} AnnotationPlaces(properties: map<string, string>)
    ensures var file, line, title := Property(properties, "file"), Property(properties, "line"), Property(properties, "title");
            var col := Property(properties, "col");
            var prefix := AnnotationPrefix(properties);
            && (file != "" && line != "" && col != "" && title != "" ==> prefix == file + ":" + line + ":" + col + ": " + title + ": ")
            && (file != "" && line != "" && col != "" && title == "" ==> prefix == file + ":" + line + ":" + col + ": ")
            && (file != "" && line != "" && col == "" && Property(properties, "column") == "" && title == "" ==> prefix == file + ":" + line + ": ")
            && (file != "" && line != "" && col == "" && Property(properties, "column") != "" && title == "" ==>
                  prefix == file + ":" + line + ":" + Property(properties, "column") + ": ")
            && (file != "" && line == "" && title == "" ==> prefix == file + ": ")
            && (file == "" && title != "" ==> prefix == title + ": ")
            && (file == "" && title == "" ==> prefix == "")
  {
    var file, line, title, col := Property(properties, "file"), Property(properties, "line"), Property(properties, "title"), Property(properties, "col");
    var column := Property(properties, "column");
    Chain4(file, line, col, title);
    Chain4(file, line, column, title);
    assert file + "" + ": " == file + ": ";
  }

  lemma {:induction false} Chain4(file: string, line: string, col: string, title: string)
    ensures file + (":" + line + (":" + col)) + ": " + (title + ": ") == file + ":" + line + ":" + col + ": " + title + ": "
    ensures file + (":" + line + (":" + col)) + ": " + "" == file + ":" + line + ":" + col + ": "
    ensures file + (":" + line + "") + ": " + "" == file + ":" + line + ": "
    ensures file + "" + ": " + "" == file + ": " && "" + (title + ": ") == title + ": "
  {
  }

  lemma {:induction false} CutFirst(a: string, b: string)
    requires ':' !in a
    ensures Cut(a + "::" + b, "::") == Parts(a, b, true)
  {
    var s := a + "::" + b;
    if a == [] {
      assert s == "::" + b && s[2..] == b;
    } else {
      assert s[0] == a[0] && s[1..] == a[1..] + "::" + b;
      CutFirst(a[1..], b);
      assert a == [a[0]] + a[1..];
      assert !("::" <= s) by { assert s[0] != ':'; }
    }
  }

  lemma {:induction false} CutAbsent(s: string, c: char)
    requires c !in s
    ensures Cut(s, [c]) == Parts(s, "", false)
  {
    if s != [] {
      CutAbsent(s[1..], c);
      assert s == [s[0]] + s[1..];
      assert !([c] <= s) by { assert s[0] != c; }
    }
  }

  /** Nothing in `s` but ASCII, and no upper-case letter, colon, space or line break. */
  predicate Plain(s: string) {
    forall i :: 0 <= i < |s| ==> s[i] < '\U{80}' && !('A' <= s[i] <= 'Z') && s[i] != ':' && s[i] != ' ' && s[i] != '\r' && s[i] != '\n'
  }

  lemma LevelsPlain(level: string)
    requires IsLevel(level)
    ensures Plain(level)
  {
  }

  lemma {:induction false} LowerPlain(k: Casing, s: string)
    requires Plain(s)
    ensures Lower(k, s) == s
  {
  }

  lemma {:induction false} TrimNothing(line: string)
    requires line != [] && !IsSpace(line[0]) && !ContainsAny(line, "\r\n")
    ensures TrimRight(line, "\r\n") == line && TrimLeftSpace(line) == line
  {
    assert line[|line| - 1] in line;
  }

  /** A one-line command without properties parses into its name and unescaped data. */
  lemma {:induction false} BareCommand(k: Casing, name: string, data: string, resume: string)
    requires ':' !in name && ' ' !in name && !ContainsAny("::" + name + "::" + data, "\r\n")
    requires IsKnown(Lower(k, name)) || (resume != "" && EqualFold(k, Lower(k, name), resume))
    ensures Parse(k, "::" + name + "::" + data, resume) == Some(Command(Lower(k, name), map[], Unescape(DATA, data)))
  {
    var line := "::" + name + "::" + data;
    assert line[0] == ':' && !IsSpace(':');
    TrimNothing(line);
    assert "::" <= line && line[2..] == name + "::" + data;
    CutFirst(name, data);
    CutAbsent(name, ' ');
    NoProperties(k);
  }

  /** A known command with escaped data parses back into its name and that data. */
  lemma {:induction false} NamedCommand(k: Casing, name: string, text: string, resume: string)
    requires IsKnown(name) && Plain(name)
    ensures Parse(k, "::" + name + "::" + EscapeData(text), resume) == Some(Command(name, map[], text))
  {
    LowerPlain(k, name);
    EscapedIsOneLine(text);
    OneLine(name, EscapeData(text));
    DataDecodes();
    UnescapeEscape(DATA, text);
    BareCommand(k, name, EscapeData(text), resume);
  }

  lemma {:induction false} OneLine(name: string, data: string)
    requires Plain(name) && !ContainsAny(data, "\r\n")
    ensures ':' !in name && ' ' !in name && !ContainsAny("::" + name + "::" + data, "\r\n")
  {
  }

  /** An annotation reads back as its level, no properties, and exactly the text folded into it. */
  lemma {:induction false} AnnotationReadsBack(k: Casing, level: string, properties: map<string, string>, message: string, resume: string)
    requires IsLevel(level)
    ensures Parse(k, FormatAnnotation(level, properties, message), resume)
              == Some(Command(level, map[], AnnotationPrefix(properties) + message))
    ensures Property(properties, "file") == "" && Property(properties, "title") == "" ==>
              Parse(k, FormatAnnotation(level, properties, message), resume) == Some(Command(level, map[], message))
  {
    LevelsPlain(level);
    NamedCommand(k, level, AnnotationPrefix(properties) + message, resume);
    assert "" + message == message;
  }

  lemma NoProperties(k: Casing)
    ensures TrimSpace("") == "" && Properties(k, SplitAt("", ','), PROPERTY) == map[]
  {
    CutAbsent("", ',');
    assert SplitAt("", ',') == [""];
    CutAbsent("", '=');
    assert [""][..0] == [];
  }

  // ---- the handler ----

  /** What a command does to the run, or a line written to the log, in order. */
  datatype Effect =
    | SetEnv(properties: map<string, string>, value: string)
    | SetOutput(properties: map<string, string>, value: string)
    | SaveState(properties: map<string, string>, value: string)
    | AddPath(path: string)
    | AddMask(mask: string)
    | Refused(command: string)
    | Raw(line: string)

  /** The runner's debug setting, the case tables, and whether set-env and add-path are refused after what has happened so far. */
  datatype Config = Config(debug: bool, casing: Casing, refuses: seq<Effect> -> bool)

  datatype HandlerState = HandlerState(echo: bool, resume: string, effects: seq<Effect>)

  function Do(st: HandlerState, e: Effect): HandlerState {
    st.(effects := st.effects + [e])
  }

  /** The effect of a known command outside a suspension, and whether its line is logged. */
  function Execute(cfg: Config, st: HandlerState, line: string, c: Command): (HandlerState, bool) {
    if (c.name == "set-env" || c.name == "add-path") && cfg.refuses(st.effects) then (Do(st, Refused(c.name)), st.echo)
    else if c.name == "set-env" then (Do(st, SetEnv(c.properties, c.data)), st.echo)
    else if c.name == "set-output" then (Do(st, SetOutput(c.properties, c.data)), st.echo)
    else if c.name == "add-path" then (Do(st, AddPath(c.data)), st.echo)
    else if c.name == "save-state" then (Do(st, SaveState(c.properties, c.data)), st.echo)
    else if c.name == "echo" then
      var word := Lower(cfg.casing, TrimSpace(c.data));
      (st.(echo := if word == "on" then true else if word == "off" then false else st.echo), st.echo)
    else if c.name == "add-mask" then
      var masked := Do(st, AddMask(c.data));
      (if st.echo then Do(masked, Raw("::add-mask::***")) else masked, false)
    else if c.name == "stop-commands" then
      var stopped := st.(resume := c.data);
      (if Utf8Length(c.data) > 6 then Do(stopped, AddMask(c.data)) else stopped, true)
    else if c.name == "debug" then (st, cfg.debug)
    else if IsLevel(c.name) then (Do(st, Raw(FormatAnnotation(c.name, c.properties, c.data))), false)
    else if c.name == "group" || c.name == "endgroup" then
      if "::" + c.name + "::" <= line || "##[" + c.name + "]" <= line then (st, true)
      else (Do(st, Raw("::" + c.name + "::" + EscapeData(c.data))), false)
    else (st, st.echo)
  }

  predicate Resumes(k: Casing, line: string, token: string) {
    var c := Parse(k, line, token);
    c.Some? && EqualFold(k, c.value.name, token)
  }

  function HandleLine(cfg: Config, st: HandlerState, line: string): (HandlerState, bool) {
    var c := Parse(cfg.casing, line, st.resume);
    if c.None? then (st, true)
    else if st.resume != "" then (if EqualFold(cfg.casing, c.value.name, st.resume) then st.(resume := "") else st, true)
    else Execute(cfg, st, line, c.value)
  }

  /** The line is the command `name` with this data, to a handler that is not suspended. */
  ghost predicate Names(k: Casing, line: string, name: string, data: string) {
    var c := Parse(k, line, "");
    c.Some? && c.value.name == name && c.value.data == data
  }

  /** What a command may touch: the token is set by a stop, echoing by an echo, and effects only grow. */
  lemma {:induction false} ExecuteTouches(cfg: Config, st: HandlerState, line: string, c: Command)
    ensures var (next, logged) := Execute(cfg, st, line, c);
            && st.effects <= next.effects
            && (next.resume != st.resume ==> c.name == "stop-commands" && next.resume == c.data && logged)
            && (next.echo != st.echo ==> c.name == "echo")
  {
  }

  lemma {:induction false} HandlerTouches(cfg: Config, st: HandlerState, line: string)
    ensures var (next, logged) := HandleLine(cfg, st, line);
            && st.effects <= next.effects && (!logged ==> st.resume == "" && Parse(cfg.casing, line, "").Some?)
            && (st.resume == "" && next.resume != "" ==> Names(cfg.casing, line, "stop-commands", next.resume) && logged)
            && (next.echo != st.echo ==> st.resume == "" && exists data :: Names(cfg.casing, line, "echo", data))
  {
    var c := Parse(cfg.casing, line, st.resume);
    if c.Some? && st.resume == "" {
      ExecuteTouches(cfg, st, line, c.value);
      assert c.value.name == "echo" ==> Names(cfg.casing, line, "echo", c.value.data);
    }
  }

  // ---- what each command does ----

  /** A handler that is not suspended parses the line to this command. */
  ghost predicate Reads(cfg: Config, st: HandlerState, line: string, c: Command) {
    st.resume == "" && Parse(cfg.casing, line, "") == Some(c)
  }

  /** An output takes the command's properties and data, its line logged only when echoing. */
  lemma {:induction false} SetsOutput(cfg: Config, st: HandlerState, line: string, c: Command)
    requires Reads(cfg, st, line, c) && c.name == "set-output"
    ensures HandleLine(cfg, st, line) == (st.(effects := st.effects + [SetOutput(c.properties, c.data)]), st.echo)
  {
    SetsOutputRun(cfg, st, line, c);
  }

  lemma {:induction false} SetsOutputRun(cfg: Config, st: HandlerState, line: string, c: Command)
    requires c.name == "set-output"
    ensures Execute(cfg, st, line, c) == (st.(effects := st.effects + [SetOutput(c.properties, c.data)]), st.echo)
  {
    assert |c.name| == 10 && c.name[1] == 'e';
  }

  /** So does saved state. */
  lemma {:induction false} SavesState(cfg: Config, st: HandlerState, line: string, c: Command)
    requires Reads(cfg, st, line, c) && c.name == "save-state"
    ensures HandleLine(cfg, st, line) == (st.(effects := st.effects + [SaveState(c.properties, c.data)]), st.echo)
  {
    SavesStateRun(cfg, st, line, c);
  }

  lemma {:induction false} SavesStateRun(cfg: Config, st: HandlerState, line: string, c: Command)
    requires c.name == "save-state"
    ensures Execute(cfg, st, line, c) == (st.(effects := st.effects + [SaveState(c.properties, c.data)]), st.echo)
  {
    assert |c.name| == 10 && c.name[1] == 'a';
  }

  /** The environment is changed unless that is refused, which is all that happens then. */
  lemma {:induction false} SetsEnvironment(cfg: Config, st: HandlerState, line: string, c: Command)
    requires Reads(cfg, st, line, c) && c.name == "set-env"
    ensures HandleLine(cfg, st, line) ==
              (st.(effects := st.effects + [if cfg.refuses(st.effects) then Refused("set-env") else SetEnv(c.properties, c.data)]), st.echo)
  {
    SetsEnvironmentRun(cfg, st, line, c);
  }

  lemma {:induction false} SetsEnvironmentRun(cfg: Config, st: HandlerState, line: string, c: Command)
    requires c.name == "set-env"
    ensures Execute(cfg, st, line, c) ==
              (st.(effects := st.effects + [if cfg.refuses(st.effects) then Refused("set-env") else SetEnv(c.properties, c.data)]), st.echo)
  {
    assert |c.name| == 7;
  }

  /** So is the path. */
  lemma {:induction false} AddsPath(cfg: Config, st: HandlerState, line: string, c: Command)
    requires Reads(cfg, st, line, c) && c.name == "add-path"
    ensures HandleLine(cfg, st, line) ==
              (st.(effects := st.effects + [if cfg.refuses(st.effects) then Refused("add-path") else AddPath(c.data)]), st.echo)
  {
    AddsPathRun(cfg, st, line, c);
  }

  lemma {:induction false} AddsPathRun(cfg: Config, st: HandlerState, line: string, c: Command)
    requires c.name == "add-path"
    ensures Execute(cfg, st, line, c) ==
              (st.(effects := st.effects + [if cfg.refuses(st.effects) then Refused("add-path") else AddPath(c.data)]), st.echo)
  {
    assert |c.name| == 8 && c.name[4] == 'p';
  }

  /** Echoing is switched for the lines that follow. */
  lemma {:induction false} SwitchesEcho(cfg: Config, st: HandlerState, line: string, c: Command)
    requires Reads(cfg, st, line, c) && c.name == "echo"
    ensures Lower(cfg.casing, TrimSpace(c.data)) == "on" ==> HandleLine(cfg, st, line) == (st.(echo := true), st.echo)
    ensures Lower(cfg.casing, TrimSpace(c.data)) == "off" ==> HandleLine(cfg, st, line) == (st.(echo := false), st.echo)
  {
    SwitchesEchoRun(cfg, st, line, c);
  }

  lemma {:induction false} SwitchesEchoRun(cfg: Config, st: HandlerState, line: string, c: Command)
    requires c.name == "echo"
    ensures Lower(cfg.casing, TrimSpace(c.data)) == "on" ==> Execute(cfg, st, line, c) == (st.(echo := true), st.echo)
    ensures Lower(cfg.casing, TrimSpace(c.data)) == "off" ==> Execute(cfg, st, line, c) == (st.(echo := false), st.echo)
  {
    assert |c.name| == 4 && |"on"| == 2 && |"off"| == 3;
  }

  /** Debug lines show in debug mode. */
  lemma {:induction false} ShowsDebug(cfg: Config, st: HandlerState, line: string, c: Command)
    requires Reads(cfg, st, line, c) && c.name == "debug"
    ensures HandleLine(cfg, st, line) == (st, cfg.debug)
  {
    ShowsDebugRun(cfg, st, line, c);
  }

  lemma {:induction false} ShowsDebugRun(cfg: Config, st: HandlerState, line: string, c: Command)
    requires c.name == "debug"
    ensures Execute(cfg, st, line, c) == (st, cfg.debug)
  {
    assert |c.name| == 5 && c.name[0] == 'd';
  }

  /** A mask is never logged but as stars, and those only when echoing. */
  lemma {:induction false} MaskShowsStars(cfg: Config, st: HandlerState, line: string, c: Command)
    requires Reads(cfg, st, line, c) && c.name == "add-mask"
    ensures HandleLine(cfg, st, line) ==
              (st.(effects := st.effects + [AddMask(c.data)] + if st.echo then [Raw("::add-mask::***")] else []), false)
  {
    MaskShowsStarsRun(cfg, st, line, c);
  }

  lemma {:induction false} MaskShowsStarsRun(cfg: Config, st: HandlerState, line: string, c: Command)
    requires c.name == "add-mask"
    ensures Execute(cfg, st, line, c) ==
              (st.(effects := st.effects + [AddMask(c.data)] + if st.echo then [Raw("::add-mask::***")] else []), false)
  {
    assert |c.name| == 8 && c.name[4] == 'm';
    assert st.effects + [AddMask(c.data)] + [] == st.effects + [AddMask(c.data)];
  }

  /** Matchers do nothing. */
  lemma {:induction false} MatchersDoNothing(cfg: Config, st: HandlerState, line: string, c: Command)
    requires Reads(cfg, st, line, c) && (c.name == "add-matcher" || c.name == "remove-matcher")
    ensures HandleLine(cfg, st, line) == (st, st.echo)
  {
    MatchersDoNothingRun(cfg, st, line, c);
  }

  lemma {:induction false} MatchersDoNothingRun(cfg: Config, st: HandlerState, line: string, c: Command)
    requires (c.name == "add-matcher" || c.name == "remove-matcher")
    ensures Execute(cfg, st, line, c) == (st, st.echo)
  {
    assert |c.name| == 11 || |c.name| == 14;
  }

  /** A level is rewritten as an annotation, in place of its line. */
  lemma {:induction false} LevelsAnnotate(cfg: Config, st: HandlerState, line: string, c: Command)
    requires Reads(cfg, st, line, c) && (c.name == "notice" || c.name == "warning" || c.name == "error")
    ensures HandleLine(cfg, st, line) ==
              (st.(effects := st.effects + [Raw("::" + c.name + "::" + EscapeData(AnnotationPrefix(c.properties) + c.data))]), false)
  {
    LevelsAnnotateRun(cfg, st, line, c);
  }

  lemma {:induction false} LevelsAnnotateRun(cfg: Config, st: HandlerState, line: string, c: Command)
    requires (c.name == "notice" || c.name == "warning" || c.name == "error")
    ensures Execute(cfg, st, line, c) ==
              (st.(effects := st.effects + [Raw("::" + c.name + "::" + EscapeData(AnnotationPrefix(c.properties) + c.data))]), false)
  {
    assert (|c.name| == 6 && c.name[0] == 'n') || (|c.name| == 7 && c.name[0] == 'w') || (|c.name| == 5 && c.name[0] == 'e');
  }

  /** A group mark is logged, or rewritten if its line does not start with it. */
  lemma {:induction false} GroupsAreMarked(cfg: Config, st: HandlerState, line: string, c: Command)
    requires Reads(cfg, st, line, c) && (c.name == "group" || c.name == "endgroup")
    ensures HandleLine(cfg, st, line) ==
              if "::" + c.name + "::" <= line || "##[" + c.name + "]" <= line then (st, true)
              else (st.(effects := st.effects + [Raw("::" + c.name + "::" + EscapeData(c.data))]), false)
  {
    GroupsAreMarkedRun(cfg, st, line, c);
  }

  lemma {:induction false} GroupsAreMarkedRun(cfg: Config, st: HandlerState, line: string, c: Command)
    requires (c.name == "group" || c.name == "endgroup")
    ensures Execute(cfg, st, line, c) ==
              if "::" + c.name + "::" <= line || "##[" + c.name + "]" <= line then (st, true)
              else (st.(effects := st.effects + [Raw("::" + c.name + "::" + EscapeData(c.data))]), false)
  {
    assert (|c.name| == 5 && c.name[0] == 'g') || (|c.name| == 8 && c.name[0] == 'e');
  }

  /** The handler as the runner keeps it, one per step or hook. */
  class CommandHandler {
    const cfg: Config
    var echo: bool
    var resumeCommand: string
    var effects: seq<Effect>

    function State(): HandlerState
      reads this
    {
      HandlerState(echo, resumeCommand, effects)
    }

    constructor (cfg: Config)
      ensures this.cfg == cfg && State() == HandlerState(cfg.debug, "", [])
    {
      this.cfg, echo, resumeCommand, effects := cfg, cfg.debug, "", [];
    }

    /** Reports whether the line is to be logged as it is. */
    method Handle(line: string) returns (logged: bool)
      modifies this
      ensures (State(), logged) == HandleLine(cfg, old(State()), line)
      // a line that is no command does nothing and is logged
      ensures Parse(cfg.casing, line, old(resumeCommand)).None? ==> logged && State() == old(State())
      // a suspended handler logs everything, does nothing, and listens for its token only
      ensures old(resumeCommand) != "" ==>
                && logged && effects == old(effects) && echo == old(echo)
                && resumeCommand == if Resumes(cfg.casing, line, old(resumeCommand)) then "" else old(resumeCommand)
      // only a stop command suspends, under the token it names
      ensures old(resumeCommand) == "" && resumeCommand != "" ==> Names(cfg.casing, line, "stop-commands", resumeCommand) && logged
      // only an echo command outside a suspension switches echoing
      ensures echo != old(echo) ==> old(resumeCommand) == "" && exists data :: Names(cfg.casing, line, "echo", data)
      // what has happened stays, and a line kept out of the log is a command
      ensures old(effects) <= effects
      ensures !logged ==> Parse(cfg.casing, line, "").Some?
    {
      HandlerTouches(cfg, State(), line);
      var c := ParseActionCommand(cfg.casing, line, resumeCommand);
      if c.None? {
        return true;
      }
      if resumeCommand != "" {
        if EqualFold(cfg.casing, c.value.name, resumeCommand) {
          resumeCommand := "";
        }
        return true;
      }
      logged := Switch(line, c.value);
    }

    /** Handles the lines one by one, writing those to be logged after what they did. */
    method HandleAll(lines: seq<string>)
      modifies this
      ensures State() == LW.DispatchAll(Chain(cfg), old(State()), lines)
    {
      for i := 0 to |lines|
        invariant State() == LW.DispatchAll(Chain(cfg), old(State()), lines[..i])
      {
        assert lines[..i + 1][..i] == lines[..i];
        ChainDispatch(cfg, State(), lines[i]);
        var logged := Handle(lines[i]);
        if logged {
          effects := effects + [Raw(lines[i])];
        }
      }
      assert lines[..|lines|] == lines;
    }

    method Switch(line: string, c: Command) returns (logged: bool)
      modifies this
      ensures (State(), logged) == Execute(cfg, old(State()), line, c)
    {
      var echoed := echo;
      if (c.name == "set-env" || c.name == "add-path") && cfg.refuses(effects) {
        effects := effects + [Refused(c.name)];
        return echoed;
      }
      match c.name {
        case "set-env" => effects := effects + [SetEnv(c.properties, c.data)];
        case "set-output" => effects := effects + [SetOutput(c.properties, c.data)];
        case "add-path" => effects := effects + [AddPath(c.data)];
        case "save-state" => effects := effects + [SaveState(c.properties, c.data)];
        case "echo" =>
          var word := Lower(cfg.casing, TrimSpace(c.data));
          if word == "on" {
            echo := true;
          } else if word == "off" {
            echo := false;
          }
        case "add-mask" =>
          effects := effects + [AddMask(c.data)];
          if echoed {
            effects := effects + [Raw("::add-mask::***")];
          }
          return false;
        case "stop-commands" =>
          resumeCommand := c.data;
          if Utf8Length(c.data) > 6 {
            effects := effects + [AddMask(c.data)];
          }
          return true;
        case "debug" => return cfg.debug;
        case "notice" | "warning" | "error" =>
          effects := effects + [Raw(FormatAnnotation(c.name, c.properties, c.data))];
          return false;
        case "group" | "endgroup" =>
          if "::" + c.name + "::" <= line || "##[" + c.name + "]" <= line {
            return true;
          }
          effects := effects + [Raw("::" + c.name + "::" + EscapeData(c.data))];
          return false;
        case _ =>
      }
      return echoed;
    }
  }

  // ---- suspension ----

  /** The chain a step's output goes through: the handler, then the log for the lines it lets pass. */
  function Chain(cfg: Config): seq<LW.Handler<HandlerState>> {
    [(st: HandlerState, line: string) => HandleLine(cfg, st, line),
     (st: HandlerState, line: string) => (Do(st, Raw(line)), true)]
  }

  lemma ChainDispatch(cfg: Config, st: HandlerState, line: string)
    ensures LW.Dispatch(Chain(cfg), st, line) ==
              var (next, logged) := HandleLine(cfg, st, line);
              if logged then Do(next, Raw(line)) else next
  {
    var chain := Chain(cfg);
    var (next, logged) := HandleLine(cfg, st, line);
    assert chain[0](st, line) == (next, logged);
    assert chain[1..][0](next, line) == (Do(next, Raw(line)), true);
    assert |chain[1..][1..]| == 0;
    assert LW.Dispatch(chain[1..], next, line) == Do(next, Raw(line));
  }

  function RawLines(lines: seq<string>): seq<Effect> {
    if lines == [] then [] else RawLines(lines[..|lines| - 1]) + [Raw(lines[|lines| - 1])]
  }

  /** While suspended, lines that do not end the suspension are logged as they are and do nothing else. */
  lemma {:induction false} SuspendedLines(cfg: Config, st: HandlerState, lines: seq<string>)
    requires st.resume != "" && forall i :: 0 <= i < |lines| ==> !Resumes(cfg.casing, lines[i], st.resume)
    ensures LW.DispatchAll(Chain(cfg), st, lines) == st.(effects := st.effects + RawLines(lines))
  {
    if lines == [] {
      assert st.effects + [] == st.effects;
    } else {
      var init, last := lines[..|lines| - 1], lines[|lines| - 1];
      SuspendedLines(cfg, st, init);
      ChainDispatch(cfg, st.(effects := st.effects + RawLines(init)), last);
      assert st.effects + RawLines(lines) == st.effects + RawLines(init) + [Raw(last)];
    }
  }

  /** From stopping to the matching end line, everything is logged and only the log grows; then commands work again. */
  lemma {:induction false} SuspensionEnds(cfg: Config, st: HandlerState, lines: seq<string>, end: string)
    requires st.resume != "" && (forall i :: 0 <= i < |lines| ==> !Resumes(cfg.casing, lines[i], st.resume)) && Resumes(cfg.casing, end, st.resume)
    ensures LW.DispatchAll(Chain(cfg), st, lines + [end])
              == st.(resume := "", effects := st.effects + RawLines(lines) + [Raw(end)])
  {
    SuspendedLines(cfg, st, lines);
    assert (lines + [end])[..|lines|] == lines;
    ChainDispatch(cfg, st.(effects := st.effects + RawLines(lines)), end);
  }

  lemma {:induction false} ExecuteStop(cfg: Config, st: HandlerState, line: string, c: Command)
    requires c.name == "stop-commands"
    ensures Execute(cfg, st, line, c) ==
              (st.(resume := c.data, effects := if Utf8Length(c.data) > 6 then st.effects + [AddMask(c.data)] else st.effects), true)
  {
    assert |c.name| == 13;
  }

  /** A stop line is logged and starts the suspension named by its data; an empty token starts none. */
  lemma StopSuspends(cfg: Config, st: HandlerState, line: string)
    requires st.resume == "" && Parse(cfg.casing, line, "").Some? && Parse(cfg.casing, line, "").value.name == "stop-commands"
    ensures var token := Parse(cfg.casing, line, "").value.data;
            LW.Dispatch(Chain(cfg), st, line) ==
              st.(resume := token, effects := st.effects + (if Utf8Length(token) > 6 then [AddMask(token)] else []) + [Raw(line)])
  {
    ChainDispatch(cfg, st, line);
    ExecuteStop(cfg, st, line, Parse(cfg.casing, line, "").value);
    assert st.effects + [] == st.effects;
  }

  // ---- which suspensions can be ended ----

  predicate HasDoubleColon(s: string) {
    exists i :: 0 <= i < |s| - 1 && s[i] == ':' && s[i + 1] == ':'
  }

  predicate OneLineOnly(s: string) {
    '\r' !in s && '\n' !in s
  }

  /** One word on one line that fits between the marks of one of the two spellings. */
  predicate Spelled(word: string) {
    word != "" && ' ' !in word && OneLineOnly(word) && (!HasDoubleColon(word) || ']' !in word)
  }

  /** Case apart, the character is the lower case of some character. */
  ghost predicate HasLower(k: Casing, c: char) {
    exists d :: k.fold(k.lower(d)) == k.fold(c)
  }

  /** Tokens some line can end. */
  ghost predicate Endable(k: Casing, token: string) {
    Spelled(token) && forall i :: 0 <= i < |token| ==> HasLower(k, token[i])
  }

  /** A line whose command is this word. */
  function EndLine(word: string): string {
    if HasDoubleColon(word) then "##[" + word + "]" else "::" + word + " ::"
  }

  /** The word read in lower case is the token, case apart. */
  ghost predicate Matches(k: Casing, word: string, token: string) {
    |word| == |token| && forall i :: 0 <= i < |word| ==> k.fold(k.lower(word[i])) == k.fold(token[i])
  }

  lemma {:induction false} MatchesFold(k: Casing, word: string, token: string)
    ensures Matches(k, word, token) <==> EqualFold(k, Lower(k, word), token)
  {
    var a, b := Each(k.fold, Lower(k, word)), Each(k.fold, token);
    if a == b {
      assert |word| == |a| == |token|;
      forall i | 0 <= i < |word| ensures k.fold(k.lower(word[i])) == k.fold(token[i]) {
        assert a[i] == b[i];
      }
    }
  }

  /** A word that matches has its marks where the token has them. */
  lemma {:induction false} MarksAlike(k: Casing, word: string, token: string)
    requires Matches(k, word, token)
    ensures forall i :: 0 <= i < |word| ==> (IsMark(word[i]) || IsMark(token[i]) ==> word[i] == token[i])
  {
    forall i | 0 <= i < |word| && (IsMark(word[i]) || IsMark(token[i])) ensures word[i] == token[i] {
      if IsMark(word[i]) {
        assert k.lower(word[i]) == word[i];
      }
    }
  }

  lemma {:induction false} SpelledAlike(word: string, token: string)
    requires |word| == |token| && forall i :: 0 <= i < |word| ==> (IsMark(word[i]) || IsMark(token[i]) ==> word[i] == token[i])
    ensures Spelled(word) <==> Spelled(token)
  {
    MarksWithin(word, token);
    MarksWithin(token, word);
  }

  lemma {:induction false} MarksWithin(a: string, b: string)
    requires |a| == |b| && forall i :: 0 <= i < |a| ==> (IsMark(a[i]) ==> a[i] == b[i])
    ensures forall c :: c in a && IsMark(c) ==> c in b
    ensures HasDoubleColon(a) ==> HasDoubleColon(b)
  {
    forall c | c in a && IsMark(c) ensures c in b {
      var i :| 0 <= i < |a| && a[i] == c;
      assert b[i] == c;
    }
    if HasDoubleColon(a) {
      var i :| 0 <= i < |a| - 1 && a[i] == ':' && a[i + 1] == ':';
      assert b[i] == ':' && b[i + 1] == ':';
    }
  }

  /** A word that reads as the token. */
  lemma {:induction false} WordFor(k: Casing, token: string) returns (word: string)
    requires forall i :: 0 <= i < |token| ==> HasLower(k, token[i])
    ensures Matches(k, word, token)
  {
    if token == [] {
      word := [];
    } else {
      var n := |token| - 1;
      var init := WordFor(k, token[..n]);
      assert HasLower(k, token[n]);
      var d :| k.fold(k.lower(d)) == k.fold(token[n]);
      word := init + [d];
    }
  }

  lemma {:induction false} CutAtChar(a: string, c: char, b: string)
    requires c !in a
    ensures Cut(a + [c] + b, [c]) == Parts(a, b, true)
  {
    var s := a + [c] + b;
    if a == [] {
      assert s == [c] + b && s[1..] == b;
    } else {
      assert s[0] == a[0] && s[1..] == a[1..] + [c] + b;
      CutAtChar(a[1..], c, b);
      assert a == [a[0]] + a[1..];
      assert !([c] <= s) by { assert s[0] != c; }
    }
  }

  lemma {:induction false} TailDoubleColon(a: string)
    requires a != [] && HasDoubleColon(a[1..])
    ensures HasDoubleColon(a)
  {
    var i :| 0 <= i < |a[1..]| - 1 && a[1..][i] == ':' && a[1..][i + 1] == ':';
    assert a[i + 1] == ':' && a[i + 1 + 1] == ':';
  }

  lemma {:induction false} NoMarkYet(a: string)
    requires a != [] && !HasDoubleColon(a)
    ensures !("::" <= a + " ::") && (a + " ::")[1..] == a[1..] + " ::"
  {
    var s := a + " ::";
    assert s[0] == a[0] && s[1] == if |a| > 1 then a[1] else ' ';
  }

  lemma {:induction false} CutAtDoubleColon(a: string)
    requires !HasDoubleColon(a)
    ensures Cut(a + " ::", "::") == Parts(a + " ", "", true)
  {
    if a == [] {
      assert (" ::")[1..] == "::" && (" ::")[0] == ' ';
      assert Cut("::", "::") == Parts("", "", true);
      assert a + " ::" == " ::" && a + " " == " ";
    } else {
      NoMarkYet(a);
      if HasDoubleColon(a[1..]) { TailDoubleColon(a); }
      CutAtDoubleColon(a[1..]);
      assert [a[0]] + (a[1..] + " ") == a + " ";
    }
  }

  /** Every endable token is ended by a line. */
  lemma {:induction false} TokenResumes(k: Casing, token: string) returns (line: string)
    requires Endable(k, token)
    ensures Resumes(k, line, token)
  {
    var word := WordFor(k, token);
    MarksAlike(k, word, token);
    SpelledAlike(word, token);
    MatchesFold(k, word, token);
    line := EndLine(word);
    if HasDoubleColon(word) {
      LegacyEnd(k, word, token);
    } else {
      CurrentEnd(k, word, token);
    }
  }

  lemma {:induction false} CurrentHeader(word: string)
    requires !HasDoubleColon(word)
    ensures var line := "::" + word + " ::"; Header(line, line, false) == Some((word + " ", ""))
  {
    var line := "::" + word + " ::";
    assert "::" <= line && line[2..] == word + " ::";
    CutAtDoubleColon(word);
  }

  lemma {:induction false} CurrentEnd(k: Casing, word: string, token: string)
    requires Spelled(word) && token != "" && !HasDoubleColon(word) && EqualFold(k, Lower(k, word), token)
    ensures Parse(k, "::" + word + " ::", token).Some? && Parse(k, "::" + word + " ::", token).value.name == Lower(k, word)
  {
    var line := "::" + word + " ::";
    assert line[0] == ':' && !IsSpace(':');
    TrimNothing(line);
    CurrentHeader(word);
    CutAtChar(word, ' ', "");
    assert word + [' '] + "" == word + " ";
  }

  lemma {:induction false} LegacyHeader(word: string)
    requires ']' !in word
    ensures var line := "##[" + word + "]"; Header(line, line, true) == Some((word, "")) && Header(line, line, false).None?
  {
    var line := "##[" + word + "]";
    assert line[0] == '#';
    assert "##[" <= line && line[3..] == word + "]";
    CutAtChar(word, ']', "");
    assert word + [']'] + "" == word + "]";
  }

  lemma {:induction false} LegacyEnd(k: Casing, word: string, token: string)
    requires Spelled(word) && token != "" && ']' !in word && EqualFold(k, Lower(k, word), token)
    ensures Parse(k, "##[" + word + "]", token).Some? && Parse(k, "##[" + word + "]", token).value.name == Lower(k, word)
  {
    var line := "##[" + word + "]";
    assert line[0] == '#' && !IsSpace('#');
    TrimNothing(line);
    LegacyHeader(word);
    CutAbsent(word, ' ');
  }

  lemma {:induction false} CutLeavesNone(s: string, c: char)
    ensures c !in Cut(s, [c]).before
  {
    if s != [] {
      assert [c] <= s <==> s[0] == c;
      CutLeavesNone(s[1..], c);
    }
  }

  lemma {:induction false} CutLeavesNoDoubleColon(s: string)
    ensures Cut(s, "::").found ==> !HasDoubleColon(Cut(s, "::").before)
  {
    if s != [] && !("::" <= s) {
      CutLeavesNoDoubleColon(s[1..]);
    }
  }

  lemma {:induction false} TrimLeftKeepsLine(s: string)
    requires OneLineOnly(s)
    ensures OneLineOnly(TrimLeftSpace(s))
  {
    if s != [] && IsSpace(s[0]) { TrimLeftKeepsLine(s[1..]); }
  }

  lemma {:induction false} CutKeepsLine(s: string, sep: string)
    requires OneLineOnly(s) && sep != ""
    ensures OneLineOnly(Cut(s, sep).before) && OneLineOnly(Cut(s, sep).after)
  {
    var p := Cut(s, sep);
    assert forall c :: c in p.before || c in p.after ==> c in s;
  }

  /** The header of a one-line command, before its mark ends it. */
  lemma {:induction false} HeaderMarks(line: string, legacy: bool)
    requires OneLineOnly(line) && Header(line, TrimLeftSpace(line), legacy).Some?
    ensures var h := Header(line, TrimLeftSpace(line), legacy).value.0;
            OneLineOnly(h) && if legacy then ']' !in h else !HasDoubleColon(h)
  {
    if legacy {
      var start := Cut(line, "##[");
      CutKeepsLine(line, "##[");
      CutKeepsLine(start.after, "]");
      CutLeavesNone(start.after, ']');
    } else {
      TrimLeftKeepsLine(line);
      CutKeepsLine(TrimLeftSpace(line)[2..], "::");
      CutLeavesNoDoubleColon(TrimLeftSpace(line)[2..]);
    }
  }

  /** The word a command's name comes from. */
  lemma {:induction false} NameIsWord(k: Casing, line: string, resume: string, legacy: bool) returns (word: string)
    requires OneLineOnly(line) && ParseForm(k, line, resume, legacy).Some?
    ensures ParseForm(k, line, resume, legacy).value.name == Lower(k, word)
    ensures word != "" ==> Spelled(word)
  {
    var h := Header(line, TrimLeftSpace(line), legacy).value.0;
    HeaderMarks(line, legacy);
    var p := Cut(h, " ");
    word := p.before;
    CutLeavesNone(h, ' ');
    assert word <= h;
    assert forall c :: c in word ==> c in h;
    if HasDoubleColon(word) {
      var i :| 0 <= i < |word| - 1 && word[i] == ':' && word[i + 1] == ':';
      assert h[i] == ':' && h[i + 1] == ':';
    }
  }

  lemma {:induction false} ResumedIsEndable(k: Casing, token: string, line: string)
    requires Resumes(k, line, token)
    ensures Endable(k, token)
  {
    var l := TrimRight(line, "\r\n");
    assert OneLineOnly(l) by { assert !ContainsAny(l, "\r\n") && '\r' in "\r\n" && '\n' in "\r\n"; }
    var legacy := ParseForm(k, l, token, false).None?;
    var word := NameIsWord(k, l, token, legacy);
    MatchesFold(k, word, token);
    MarksAlike(k, word, token);
    SpelledAlike(word, token);
    forall i | 0 <= i < |token| ensures HasLower(k, token[i]) {
      assert k.fold(k.lower(word[i])) == k.fold(token[i]);
    }
  }

  /** No line ends any other token, though a stop line accepts it. */
  lemma {:induction false} OthersNeverResume(k: Casing, token: string, line: string)
    requires !Endable(k, token)
    ensures !Resumes(k, line, token)
  {
    if Resumes(k, line, token) {
      ResumedIsEndable(k, token, line);
    }
  }

  /** Some line ends a suspension if and only if its token is endable. */
  lemma {:induction false} TokenEndable(k: Casing, token: string)
    ensures (exists line :: Resumes(k, line, token)) <==> Endable(k, token)
  {
    if Endable(k, token) {
      var line := TokenResumes(k, token);
    } else if line :| Resumes(k, line, token) {
      OthersNeverResume(k, token, line);
    }
  }

  /** In Unicode the dotted capital I differs from every other character, and its lower case is a plain i. */
  lemma {:induction false} DottedINeverResumes(k: Casing, token: string, line: string)
    requires (forall c :: k.fold(c) == k.fold('\U{130}') ==> c == '\U{130}') && forall c :: k.lower(c) != '\U{130}'
    requires '\U{130}' in token
    ensures !Resumes(k, line, token)
  {
    var i :| 0 <= i < |token| && token[i] == '\U{130}';
    assert !HasLower(k, token[i]);
    OthersNeverResume(k, token, line);
  }

  /** Every token can be named in a stop line, endable or not. */
  lemma {:induction false} AnyTokenStops(k: Casing, token: string)
    ensures Parse(k, "::" + "stop-commands" + "::" + EscapeData(token), "") == Some(Command("stop-commands", map[], token))
  {
    StopIsPlain();
    NamedCommand(k, "stop-commands", token, "");
  }

  lemma StopIsPlain()
    ensures Plain("stop-commands")
  {
  }

  // ---- a step's output ----

  /** Keeps the lines it is given. */
  function Collect(): LW.Handler<seq<string>> {
    (seen: seq<string>, line: string) => (seen + [line], true)
  }

  lemma {:induction false} CollectsAll(lines: seq<string>)
    ensures LW.DispatchAll([Collect()], [], lines) == lines
  {
    if lines != [] {
      var init, last := lines[..|lines| - 1], lines[|lines| - 1];
      CollectsAll(init);
      var chain := [Collect()];
      assert chain[0](init, last) == (init + [last], true) && |chain[1..]| == 0;
      assert LW.Dispatch(chain, init, last) == init + [last];
      assert lines == init + [last];
    }
  }

  /**
    A step's output, however it is cut into chunks, leaves the handler and the log as its lines
    one after the other do.  Each chunk's complete lines are handled before the next chunk.
   */
  method RunOutput(cfg: Config, chunks: seq<string>) returns (st: HandlerState)
    ensures st == LW.DispatchAll(Chain(cfg), HandlerState(cfg.debug, "", []), LW.Lines(LW.Flatten(chunks)))
  {
    ghost var start := HandlerState(cfg.debug, "", []);
    var handler := new CommandHandler(cfg);
    var w := new LW.LineWriter([Collect()], []);
    var handled := 0;
    for i := 0 to |chunks|
      invariant fresh(handler) && fresh(w) && handler.cfg == cfg
      invariant w.Valid() && w.handlers == [Collect()] && w.first == [] && w.written == LW.Flatten(chunks[..i])
      invariant handled == |LW.Complete(w.written)|
      invariant handler.State() == LW.DispatchAll(Chain(cfg), start, LW.Complete(w.written))
    {
      assert chunks[..i + 1][..i] == chunks[..i];
      LW.CompleteGrows(w.written, chunks[i]);
      HandledSoFar(cfg, start, LW.Complete(w.written), LW.Complete(w.written + chunks[i]));
      var _ := w.Write(chunks[i]);
      CollectsAll(LW.Complete(w.written));
      handler.HandleAll(w.state[handled..]);
      handled := |w.state|;
    }
    assert chunks[..|chunks|] == chunks;
    HandledSoFar(cfg, start, LW.Complete(w.written), LW.Lines(w.written));
    w.Flush();
    CollectsAll(LW.Lines(w.written));
    handler.HandleAll(w.state[handled..]);
    st := handler.State();
  }

  /** Handling the lines not handled yet brings the handler to where all the lines would. */
  lemma {:induction false} HandledSoFar(cfg: Config, start: HandlerState, before: seq<string>, after: seq<string>)
    requires before <= after
    ensures LW.DispatchAll(Chain(cfg), start, after) == LW.DispatchAll(Chain(cfg), LW.DispatchAll(Chain(cfg), start, before), after[|before|..])
  {
    assert before + after[|before|..] == after;
    LW.DispatchAppend(Chain(cfg), start, before, after[|before|..]);
  }
}
