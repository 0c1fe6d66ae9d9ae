/**
  Writing a workflow command down in either spelling and reading it back: its name, its list
  of properties and its data.
 */
module CommandSpelling {
  import opened Options
  import opened Commands

  // ---- escaping by a table ----

  /** The code of a character, or the character itself. */
  function CodeFor(table: Table, c: char): string {
    if table == [] then [c]
    else if table[0].1 == c then table[0].0
    else CodeFor(table[1..], c)
  }

  function Escape(table: Table, s: string): string {
    if s == [] then [] else CodeFor(table, s[0]) + Escape(table, s[1..])
  }

  ghost predicate HasCode(table: Table, c: char) {
    exists i :: 0 <= i < |table| && table[i].1 == c
  }

  predicate HexChar(c: char) {
    '0' <= c <= '9' || 'A' <= c <= 'F'
  }

  /** Every code is a percent sign and two hexadecimal digits, no two alike, and the percent sign has one. */
  ghost predicate Proper(table: Table) {
    && (forall i :: 0 <= i < |table| ==> IsCode(table[i].0))
    && (forall i, j :: 0 <= i < j < |table| ==> table[i].0 != table[j].0)
    && HasCode(table, '%')
  }

  predicate IsCode(code: string) {
    |code| == 3 && code[0] == '%' && HexChar(code[1]) && HexChar(code[2])
  }

  /** A character whose code does not show it. */
  ghost predicate Hidden(table: Table, c: char) {
    HasCode(table, c) && c != '%' && !HexChar(c)
  }

  lemma {:induction false} ProperIsUnambiguous(table: Table)
    requires Proper(table)
    ensures Coded(table) && Unambiguous(table)
  {
    forall d, e | d in table && e in table && d.0 == e.0 ensures d == e {
      var i :| 0 <= i < |table| && table[i] == d;
      var j :| 0 <= j < |table| && table[j] == e;
      assert !(i < j) && !(j < i);
    }
  }

  lemma {:induction false} CodeForMeans(table: Table, c: char)
    ensures HasCode(table, c) ==> exists i :: 0 <= i < |table| && table[i] == (CodeFor(table, c), c)
    ensures !HasCode(table, c) ==> CodeFor(table, c) == [c]
  {
    if table != [] {
      var rest := table[1..];
      CodeForMeans(rest, c);
      if table[0].1 == c {
        assert table[0] == (CodeFor(table, c), c);
      } else if HasCode(table, c) {
        var i :| 0 <= i < |table| && table[i].1 == c;
        assert rest[i - 1].1 == c;
        var j :| 0 <= j < |rest| && rest[j] == (CodeFor(rest, c), c);
        assert table[j + 1] == (CodeFor(table, c), c);
      } else {
        assert forall j :: 0 <= j < |rest| ==> rest[j] == table[j + 1];
      }
    }
  }

  lemma {:induction false} CodeForProper(table: Table, c: char)
    requires Proper(table)
    ensures if HasCode(table, c) then IsCode(CodeFor(table, c)) && (CodeFor(table, c), c) in table else CodeFor(table, c) == [c] && c != '%'
  {
    CodeForMeans(table, c);
  }

  /** Unescaping undoes it for every string. */
  lemma {:induction false} UnescapeBack(table: Table, s: string)
    requires Proper(table)
    ensures Unescape(table, Escape(table, s)) == s
  {
    if s != [] {
      UnescapeBack(table, s[1..]);
      CodeForProper(table, s[0]);
      ProperIsUnambiguous(table);
      var code, rest := CodeFor(table, s[0]), Escape(table, s[1..]);
      var all := code + rest;
      assert all[|code|..] == rest && code <= all;
      if HasCode(table, s[0]) {
        LookupFinds(table, (code, s[0]), all);
      } else {
        assert all[0] == s[0] != '%';
        assert Lookup(table, all).None?;
        assert all[1..] == rest;
      }
      assert s == [s[0]] + s[1..];
    }
  }

  lemma {:induction false} EscapedWithout(table: Table, s: string, c: char)
    requires Proper(table) && Hidden(table, c)
    ensures c !in Escape(table, s)
  {
    if s != [] {
      EscapedWithout(table, s[1..], c);
      CodeForProper(table, s[0]);
    }
  }

  lemma {:induction false} EscapeAppend(table: Table, a: string, b: string)
    ensures Escape(table, a + b) == Escape(table, a) + Escape(table, b)
  {
    if a == [] {
      assert a + b == b;
    } else {
      assert (a + b)[0] == a[0] && (a + b)[1..] == a[1..] + b;
      EscapeAppend(table, a[1..], b);
    }
  }

  lemma {:induction false} EscapedNothing(table: Table, s: string)
    requires Proper(table)
    ensures Escape(table, s) == [] <==> s == []
  {
    if s != [] { CodeForProper(table, s[0]); }
  }

  lemma {:induction false} PropertyCodes()
    ensures Proper(PROPERTY)
    ensures forall c :: HasCode(PROPERTY, c) <==> c == '%' || c == '\r' || c == '\n' || c == ':' || c == ','
  {
    assert |PROPERTY| == 5;
    assert PROPERTY[0] == ("%25", '%') && PROPERTY[1] == ("%0D", '\r') && PROPERTY[2] == ("%0A", '\n');
    assert PROPERTY[3] == ("%3A", ':') && PROPERTY[4] == ("%2C", ',');
    Differ("%25", "%0D", "%0A", "%3A", "%2C");
    FiveCodes(PROPERTY);
  }

  lemma {:induction false} LegacyCodes()
    ensures Proper(LEGACY)
    ensures forall c :: HasCode(LEGACY, c) <==> c == '%' || c == '\r' || c == '\n' || c == ';' || c == ']'
  {
    assert |LEGACY| == 5;
    assert LEGACY[0] == ("%3B", ';') && LEGACY[1] == ("%0D", '\r') && LEGACY[2] == ("%0A", '\n');
    assert LEGACY[3] == ("%5D", ']') && LEGACY[4] == ("%25", '%');
    Differ("%3B", "%0D", "%0A", "%5D", "%25");
    FiveCodes(LEGACY);
  }

  lemma {:induction false} Differ(a: string, b: string, c: string, d: string, e: string)
    requires |a| == 3 && |b| == 3 && |c| == 3 && |d| == 3 && |e| == 3
    requires (a[1], a[2]) != (b[1], b[2]) && (a[1], a[2]) != (c[1], c[2]) && (a[1], a[2]) != (d[1], d[2]) && (a[1], a[2]) != (e[1], e[2])
    requires (b[1], b[2]) != (c[1], c[2]) && (b[1], b[2]) != (d[1], d[2]) && (b[1], b[2]) != (e[1], e[2])
    requires (c[1], c[2]) != (d[1], d[2]) && (c[1], c[2]) != (e[1], e[2]) && (d[1], d[2]) != (e[1], e[2])
    ensures a != b && a != c && a != d && a != e && b != c && b != d && b != e && c != d && c != e && d != e
  {
  }

  /** Five codes are proper if each is, they differ, and the percent sign is among the characters. */
  lemma {:induction false} FiveCodes(table: Table)
    requires |table| == 5 && (table[0].1 == '%' || table[4].1 == '%')
    requires IsCode(table[0].0) && IsCode(table[1].0) && IsCode(table[2].0) && IsCode(table[3].0) && IsCode(table[4].0)
    requires table[0].0 != table[1].0 && table[0].0 != table[2].0 && table[0].0 != table[3].0 && table[0].0 != table[4].0
    requires table[1].0 != table[2].0 && table[1].0 != table[3].0 && table[1].0 != table[4].0
    requires table[2].0 != table[3].0 && table[2].0 != table[4].0 && table[3].0 != table[4].0
    ensures Proper(table)
    ensures forall c :: HasCode(table, c) <==> c == table[0].1 || c == table[1].1 || c == table[2].1 || c == table[3].1 || c == table[4].1
  {
  }

  // ---- property lists ----

  datatype Pair = Pair(key: string, value: string)

  predicate KeyChar(c: char) {
    'a' <= c <= 'z' || '0' <= c <= '9' || c == '-' || c == '_'
  }

  predicate PlainKey(s: string) {
    s != "" && forall i :: 0 <= i < |s| ==> KeyChar(s[i])
  }

  predicate PlainKeys(list: seq<Pair>) {
    forall i :: 0 <= i < |list| ==> PlainKey(list[i].key)
  }

  function Item(table: Table, p: Pair): string {
    p.key + "=" + Escape(table, p.value)
  }

  function Items(table: Table, list: seq<Pair>): (items: seq<string>)
    ensures |items| == |list| && forall i :: 0 <= i < |list| ==> items[i] == Item(table, list[i])
  {
    if list == [] then [] else Items(table, list[..|list| - 1]) + [Item(table, list[|list| - 1])]
  }

  function JoinWith(items: seq<string>, sep: char): string {
    if items == [] then "" else if |items| == 1 then items[0] else items[0] + [sep] + JoinWith(items[1..], sep)
  }

  /** The properties a list stands for: an empty value adds none, a repeated key takes its last value. */
  function Pairs(list: seq<Pair>): map<string, string> {
    if list == [] then map[]
    else
      var p := list[|list| - 1];
      if p.value == "" then Pairs(list[..|list| - 1]) else Pairs(list[..|list| - 1])[p.key := p.value]
  }

  /** Position `i` is the last that gives the key a value. */
  ghost predicate LastGiven(list: seq<Pair>, key: string, i: nat) {
    && i < |list| && list[i].key == key && list[i].value != ""
    && forall j :: i < j < |list| && list[j].key == key ==> list[j].value == ""
  }

  lemma {:induction false} PairsMeaning(list: seq<Pair>, key: string)
    ensures key in Pairs(list) <==> exists i :: 0 <= i < |list| && list[i].key == key && list[i].value != ""
    ensures forall i: nat :: LastGiven(list, key, i) ==> key in Pairs(list) && Pairs(list)[key] == list[i].value
  {
    if list != [] {
      var init, n := list[..|list| - 1], |list| - 1;
      PairsMeaning(init, key);
      forall i: nat | LastGiven(list, key, i) ensures key in Pairs(list) && Pairs(list)[key] == list[i].value {
        if i < n {
          assert LastGiven(init, key, i);
        }
      }
      if i :| 0 <= i < |list| && list[i].key == key && list[i].value != "" {
        assert i < n ==> init[i] == list[i];
      }
    }
  }

  lemma {:induction false} AddItem(k: Casing, properties: map<string, string>, p: Pair, table: Table)
    requires PlainKey(p.key) && Proper(table)
    ensures AddProperty(k, properties, Item(table, p), table) == if p.value == "" then properties else properties[p.key := p.value]
  {
    var esc := Escape(table, p.value);
    assert Item(table, p)[0] == p.key[0] && KeyChar(p.key[0]);
    assert '=' !in p.key;
    CutAtChar(p.key, '=', esc);
    assert p.key + ['='] + esc == Item(table, p);
    EscapedNothing(table, p.value);
    UnescapeBack(table, p.value);
    LowerPlain(k, p.key);
  }

  lemma {:induction false} AddItems(k: Casing, list: seq<Pair>, table: Table)
    requires PlainKeys(list) && Proper(table)
    ensures Properties(k, Items(table, list), table) == Pairs(list)
  {
    if list != [] {
      var init, p, items := list[..|list| - 1], list[|list| - 1], Items(table, list);
      assert items[..|items| - 1] == Items(table, init);
      AddItems(k, init, table);
      AddItem(k, Pairs(init), p, table);
    }
  }

  lemma {:induction false} SplitJoined(items: seq<string>, sep: char)
    requires items != [] && forall i :: 0 <= i < |items| ==> sep !in items[i]
    ensures SplitAt(JoinWith(items, sep), sep) == items
  {
    if |items| == 1 {
      CutAbsent(items[0], sep);
    } else {
      CutAtChar(items[0], sep, JoinWith(items[1..], sep));
      SplitJoined(items[1..], sep);
    }
  }

  /** A list written with a separator that does not show in its items reads back. */
  lemma {:induction false} ListReadsBack(k: Casing, list: seq<Pair>, table: Table, sep: char)
    requires PlainKeys(list) && Proper(table)
    requires Hidden(table, sep) && !KeyChar(sep) && sep != '='
    ensures Properties(k, SplitAt(JoinWith(Items(table, list), sep), sep), table) == Pairs(list)
  {
    if list == [] {
      CutAbsent("", sep);
      CutAbsent("", '=');
      assert SplitAt("", sep) == [""] && [""][..0] == [];
    } else {
      forall i | 0 <= i < |list| ensures sep !in Items(table, list)[i] {
        EscapedWithout(table, list[i].value, sep);
      }
      SplitJoined(Items(table, list), sep);
      AddItems(k, list, table);
    }
  }

  lemma {:induction false} TextWithout(table: Table, list: seq<Pair>, sep: char, c: char)
    requires PlainKeys(list) && Proper(table) && Hidden(table, c) && !KeyChar(c) && c != '=' && c != sep
    ensures c !in JoinWith(Items(table, list), sep)
  {
    var items := Items(table, list);
    forall i | 0 <= i < |items| ensures c !in items[i] {
      EscapedWithout(table, list[i].value, c);
    }
    JoinWithout(items, sep, c);
  }

  lemma {:induction false} JoinWithout(items: seq<string>, sep: char, c: char)
    requires c != sep && forall i :: 0 <= i < |items| ==> c !in items[i]
    ensures c !in JoinWith(items, sep)
  {
    if |items| > 1 { JoinWithout(items[1..], sep, c); }
  }

  /** What is parsed from a line of one spelling whose header and name are known. */
  lemma {:induction false} ParsedByHeader(k: Casing, line: string, legacy: bool, header: string, data: string, name: string, text: string, resume: string)
    requires !ContainsAny(line, "\r\n") && TrimRight(line, "\r\n") == line && TrimLeftSpace(line) == line
    requires Header(line, line, legacy) == Some((header, data)) && (legacy ==> Header(line, line, false).None?)
    requires Cut(header, " ") == Parts(name, text, true) && Lower(k, name) == name && IsKnown(name)
    ensures Parse(k, line, resume) ==
              if legacy then Some(Command(name, Properties(k, SplitAt(text, ';'), LEGACY), Unescape(LEGACY, data)))
              else Some(Command(name, Properties(k, SplitAt(TrimSpace(text), ','), PROPERTY), Unescape(DATA, data)))
  {
  }

  // ---- the legacy spelling ----

  function LegacyLine(name: string, list: seq<Pair>, data: string): string {
    "##[" + name + " " + JoinWith(Items(LEGACY, list), ';') + "]" + Escape(LEGACY, data)
  }

  lemma {:induction false} LegacyLineHeader(name: string, text: string, data: string)
    requires ']' !in name && ']' !in text && ' ' !in name
    ensures var line := "##[" + name + " " + text + "]" + data;
            && Header(line, line, true) == Some((name + " " + text, data)) && Header(line, line, false).None?
            && Cut(name + " " + text, " ") == Parts(name, text, true)
  {
    var line := "##[" + name + " " + text + "]" + data;
    assert line[0] == '#';
    assert "##[" <= line && line[3..] == (name + " " + text) + [']'] + data;
    CutAtChar(name + " " + text, ']', data);
    CutAtChar(name, ' ', text);
    assert name + [' '] + text == name + " " + text;
  }

  /** A command in the legacy spelling reads back as its name, its properties and its data, whatever they hold. */
  lemma {:induction false} LegacyReadsBack(k: Casing, name: string, list: seq<Pair>, data: string, resume: string)
    requires IsKnown(name) && Plain(name) && ']' !in name && PlainKeys(list)
    ensures Parse(k, LegacyLine(name, list, data), resume) == Some(Command(name, Pairs(list), data))
  {
    var text, esc, line := JoinWith(Items(LEGACY, list), ';'), Escape(LEGACY, data), LegacyLine(name, list, data);
    LegacyPieces(list, data);
    OneLinePieces(name, text, esc);
    Untrimmed("#", line);
    LegacyLineHeader(name, text, esc);
    LowerPlain(k, name);
    ParsedByHeader(k, line, true, name + " " + text, esc, name, text, resume);
  }

  lemma {:induction false} LegacyPieces(list: seq<Pair>, data: string)
    requires PlainKeys(list)
    ensures var text, esc := JoinWith(Items(LEGACY, list), ';'), Escape(LEGACY, data);
            && ']' !in text && '\r' !in text && '\n' !in text && '\r' !in esc && '\n' !in esc
            && Unescape(LEGACY, esc) == data
            && forall k :: Properties(k, SplitAt(text, ';'), LEGACY) == Pairs(list)
  {
    LegacyCodes();
    TextWithout(LEGACY, list, ';', ']');
    TextWithout(LEGACY, list, ';', '\r');
    TextWithout(LEGACY, list, ';', '\n');
    EscapedWithout(LEGACY, data, '\r');
    EscapedWithout(LEGACY, data, '\n');
    UnescapeBack(LEGACY, data);
    forall k ensures Properties(k, SplitAt(JoinWith(Items(LEGACY, list), ';'), ';'), LEGACY) == Pairs(list) {
      ListReadsBack(k, list, LEGACY, ';');
    }
  }

  lemma {:induction false} Untrimmed(start: string, line: string)
    requires |start| == 1 && !IsSpace(start[0]) && start <= line && !ContainsAny(line, "\r\n")
    ensures TrimRight(line, "\r\n") == line && TrimLeftSpace(line) == line
  {
    TrimNothing(line);
  }

  lemma {:induction false} OneLinePieces(name: string, text: string, data: string)
    requires Plain(name) && '\r' !in text && '\n' !in text && '\r' !in data && '\n' !in data
    ensures !ContainsAny("##[" + name + " " + text + "]" + data, "\r\n")
    ensures !ContainsAny("::" + name + " " + text + "::" + data, "\r\n")
    ensures '\r' !in name && '\n' !in name && ':' !in name && ' ' !in name
  {
  }

  // ---- the current spelling ----

  function CurrentLine(name: string, list: seq<Pair>, data: string): string {
    "::" + name + " " + JoinWith(Items(PROPERTY, list), ',') + "::" + EscapeData(data)
  }

  /** White space at the end that escaping leaves as it is. */
  function Stripped(s: string): string {
    if s != [] && Strippable(s[|s| - 1]) then Stripped(s[..|s| - 1]) else s
  }

  /** The list as it is read: the white space at its very end is trimmed. */
  function EndTrimmed(list: seq<Pair>): (r: seq<Pair>)
    ensures |r| == |list| && (PlainKeys(list) ==> PlainKeys(r))
  {
    if list == [] then [] else list[..|list| - 1] + [list[|list| - 1].(value := Stripped(list[|list| - 1].value))]
  }

  /** White space other than a line break has no code. */
  ghost predicate KeepsSpace(table: Table) {
    forall c :: HasCode(table, c) && IsSpace(c) ==> c == '\r' || c == '\n'
  }

  predicate Strippable(c: char) {
    IsSpace(c) && c != '\r' && c != '\n'
  }

  /** What the last character adds: itself if it is white space other than a line break, else something that ends in none. */
  lemma {:induction false} LastEscaped(table: Table, s: string, c: char)
    requires Proper(table) && KeepsSpace(table) && HasCode(table, '\r') && HasCode(table, '\n')
    ensures Escape(table, s + [c]) == Escape(table, s) + CodeFor(table, c) && CodeFor(table, c) != []
    ensures Strippable(c) ==> CodeFor(table, c) == [c]
    ensures !Strippable(c) ==> !IsSpace(CodeFor(table, c)[|CodeFor(table, c)| - 1])
  {
    EscapeAppend(table, s, [c]);
    assert [c][1..] == [] && Escape(table, [c]) == CodeFor(table, c) + [];
    CodeForProper(table, c);
  }

  lemma {:induction false} TrimsLast(s: string, c: char)
    requires IsSpace(c)
    ensures TrimRightSpace(s + [c]) == TrimRightSpace(s)
  {
    assert (s + [c])[..|s|] == s;
  }

  lemma {:induction false} KeepsLast(s: string, end: string)
    requires end != [] && !IsSpace(end[|end| - 1])
    ensures TrimRightSpace(s + end) == s + end
  {
    assert (s + end)[|s + end| - 1] == end[|end| - 1];
  }

  /** Trimming an escaped value is escaping a trimmed one. */
  lemma {:induction false} TrimEscaped(table: Table, front: string, s: string)
    requires Proper(table) && KeepsSpace(table) && HasCode(table, '\r') && HasCode(table, '\n')
    requires front != [] && !IsSpace(front[|front| - 1])
    ensures TrimRightSpace(front + Escape(table, s)) == front + Escape(table, Stripped(s))
  {
    if s == [] {
      assert front + Escape(table, s) == front;
    } else {
      var init, c := s[..|s| - 1], s[|s| - 1];
      LastEscaped(table, init, c);
      assert s == init + [c];
      var before, code := front + Escape(table, init), CodeFor(table, c);
      assert front + (Escape(table, init) + code) == before + code;
      if Strippable(c) {
        TrimsLast(before, c);
        TrimEscaped(table, front, init);
      } else {
        KeepsLast(before, code);
      }
    }
  }

  lemma {:induction false} JoinLast(items: seq<string>, sep: char)
    requires items != []
    ensures JoinWith(items, sep) == (if |items| == 1 then "" else JoinWith(items[..|items| - 1], sep) + [sep]) + items[|items| - 1]
  {
    if |items| > 1 {
      var init := items[..|items| - 1];
      JoinLast(items[1..], sep);
      if |items| > 2 {
        assert items[1..][..|items| - 2] == init[1..] && init[0] == items[0];
        assert JoinWith(init, sep) == items[0] + [sep] + JoinWith(init[1..], sep);
      }
    }
  }

  lemma {:induction false} TrimList(list: seq<Pair>)
    requires PlainKeys(list)
    ensures TrimSpace(JoinWith(Items(PROPERTY, list), ',')) == JoinWith(Items(PROPERTY, EndTrimmed(list)), ',')
  {
    PropertyCodes();
    if list != [] { TrimTexts(PROPERTY, list); }
  }

  /** A list's text up to its last value. */
  function Front(table: Table, list: seq<Pair>): string
    requires list != []
  {
    var n := |list| - 1;
    (if n == 0 then "" else JoinWith(Items(table, list[..n]), ',') + ",") + list[n].key + "="
  }

  lemma {:induction false} TextSplits(table: Table, list: seq<Pair>)
    requires list != []
    ensures JoinWith(Items(table, list), ',') == Front(table, list) + Escape(table, list[|list| - 1].value)
    ensures Front(table, list)[|Front(table, list)| - 1] == '='
  {
    var n, items := |list| - 1, Items(table, list);
    JoinLast(items, ',');
    assert items[..n] == Items(table, list[..n]);
    var start, key, esc := if n == 0 then "" else JoinWith(items[..n], ',') + ",", list[n].key, Escape(table, list[n].value);
    assert start + (key + "=" + esc) == (start + key + "=") + esc;
  }

  lemma {:induction false} TrimTexts(table: Table, list: seq<Pair>)
    requires Proper(table) && KeepsSpace(table) && HasCode(table, '\r') && HasCode(table, '\n') && PlainKeys(list) && list != []
    ensures TrimSpace(JoinWith(Items(table, list), ',')) == JoinWith(Items(table, EndTrimmed(list)), ',')
  {
    var n, trimmed := |list| - 1, EndTrimmed(list);
    TextSplits(table, list);
    TextSplits(table, trimmed);
    assert trimmed[..n] == list[..n];
    FirstIsKey(table, list);
    TrimEscaped(table, Front(table, list), list[n].value);
  }

  lemma {:induction false} FirstIsKey(table: Table, list: seq<Pair>)
    requires list != [] && PlainKeys(list)
    ensures var text := JoinWith(Items(table, list), ','); text != [] && KeyChar(text[0]) && !IsSpace(text[0])
  {
    var items := Items(table, list);
    assert items[0] == Item(table, list[0]) && items[0][0] == list[0].key[0];
    assert JoinWith(items, ',')[0] == items[0][0];
  }

  lemma {:induction false} CurrentLineHeader(name: string, text: string, data: string)
    requires ':' !in name && ':' !in text && ' ' !in name
    ensures var line := "::" + name + " " + text + "::" + data;
            && Header(line, line, false) == Some((name + " " + text, data))
            && Cut(name + " " + text, " ") == Parts(name, text, true)
  {
    var line := "::" + name + " " + text + "::" + data;
    assert "::" <= line && line[2..] == (name + " " + text) + "::" + data;
    CutFirst(name + " " + text, data);
    CutAtChar(name, ' ', text);
    assert name + [' '] + text == name + " " + text;
  }

  /**
    A command in the current spelling reads back as its name, its properties and its data,
    whatever they hold, but for white space at the end of the last value, which is trimmed.
   */
  lemma {:induction false} CurrentReadsBack(k: Casing, name: string, list: seq<Pair>, data: string, resume: string)
    requires IsKnown(name) && Plain(name) && PlainKeys(list)
    ensures Parse(k, CurrentLine(name, list, data), resume) == Some(Command(name, Pairs(EndTrimmed(list)), data))
  {
    var text, esc, line := JoinWith(Items(PROPERTY, list), ','), EscapeData(data), CurrentLine(name, list, data);
    CurrentPieces(list, data);
    OneLinePieces(name, text, esc);
    Untrimmed(":", line);
    CurrentLineHeader(name, text, esc);
    LowerPlain(k, name);
    ParsedByHeader(k, line, false, name + " " + text, esc, name, text, resume);
  }

  lemma {:induction false} CurrentPieces(list: seq<Pair>, data: string)
    requires PlainKeys(list)
    ensures var text, esc := JoinWith(Items(PROPERTY, list), ','), EscapeData(data);
            && ':' !in text && '\r' !in text && '\n' !in text && '\r' !in esc && '\n' !in esc
            && Unescape(DATA, esc) == data
            && forall k :: Properties(k, SplitAt(TrimSpace(text), ','), PROPERTY) == Pairs(EndTrimmed(list))
  {
    CurrentText(list);
    TrimList(list);
    CurrentData(data);
  }

  lemma {:induction false} CurrentText(list: seq<Pair>)
    requires PlainKeys(list)
    ensures var text := JoinWith(Items(PROPERTY, list), ','); ':' !in text && '\r' !in text && '\n' !in text
    ensures forall k :: Properties(k, SplitAt(JoinWith(Items(PROPERTY, EndTrimmed(list)), ','), ','), PROPERTY) == Pairs(EndTrimmed(list))
  {
    PropertyCodes();
    TextWithout(PROPERTY, list, ',', ':');
    TextWithout(PROPERTY, list, ',', '\r');
    TextWithout(PROPERTY, list, ',', '\n');
    forall k ensures Properties(k, SplitAt(JoinWith(Items(PROPERTY, EndTrimmed(list)), ','), ','), PROPERTY) == Pairs(EndTrimmed(list)) {
      ListReadsBack(k, EndTrimmed(list), PROPERTY, ',');
    }
  }

  lemma {:induction false} CurrentData(data: string)
    ensures '\r' !in EscapeData(data) && '\n' !in EscapeData(data) && Unescape(DATA, EscapeData(data)) == data
  {
    EscapedIsOneLine(data);
    assert '\r' in "\r\n" && '\n' in "\r\n";
    DataDecodes();
    UnescapeEscape(DATA, data);
  }

  /** The last key had the last value before. */
  predicate GivenBefore(list: seq<Pair>)
    requires list != []
  {
    var p, before := list[|list| - 1], Pairs(list[..|list| - 1]);
    p.key in before && before[p.key] == p.value
  }

  /**
    So the round trip is exact if and only if the last value does not end in such white space, or is
    nothing else and says only what was said before.
   */
  lemma {:induction false} CurrentReadsBackExactly(k: Casing, name: string, list: seq<Pair>, data: string, resume: string)
    requires IsKnown(name) && Plain(name) && PlainKeys(list)
    ensures Parse(k, CurrentLine(name, list, data), resume) == Some(Command(name, Pairs(list), data)) <==>
              list == [] || Stripped(list[|list| - 1].value) == list[|list| - 1].value
              || (Stripped(list[|list| - 1].value) == "" && GivenBefore(list))
  {
    CurrentReadsBack(k, name, list, data, resume);
    if list != [] { TrimmedPairs(list); }
  }

  lemma {:induction false} TrimmedPairs(list: seq<Pair>)
    requires list != []
    ensures var v := list[|list| - 1].value;
            Pairs(EndTrimmed(list)) == Pairs(list) <==> Stripped(v) == v || (Stripped(v) == "" && GivenBefore(list))
  {
    var n := |list| - 1;
    var p, trimmed := list[n], EndTrimmed(list);
    StrippedShorter(p.value);
    assert trimmed[..n] == list[..n] && trimmed[n] == p.(value := Stripped(p.value));
    var before := Pairs(list[..n]);
    assert Pairs(list) == if p.value == "" then before else before[p.key := p.value];
    assert Pairs(trimmed) == if Stripped(p.value) == "" then before else before[p.key := Stripped(p.value)];
    assert p.value != "" ==> p.key in Pairs(list) && Pairs(list)[p.key] == p.value;
    if GivenBefore(list) { assert before[p.key := p.value] == before; }
  }

  lemma {:induction false} StrippedShorter(s: string)
    ensures Stripped(s) == s || |Stripped(s)| < |s|
  {
    if s != [] { StrippedShorter(s[..|s| - 1]); }
  }

  // ---- around a command ----

  lemma {:induction false} TrimRightBreaks(line: string, end: string)
    requires forall i :: 0 <= i < |end| ==> end[i] in "\r\n"
    ensures TrimRight(line + end, "\r\n") == TrimRight(line, "\r\n")
  {
    if end == [] {
      assert line + end == line;
    } else {
      var n := |end| - 1;
      assert (line + end)[..|line + end| - 1] == line + end[..n] && (line + end)[|line + end| - 1] == end[n];
      TrimRightBreaks(line, end[..n]);
    }
  }

  /** The line breaks at the end of a line do not matter. */
  lemma {:induction false} LineEndDropped(k: Casing, line: string, end: string, resume: string)
    requires forall i :: 0 <= i < |end| ==> end[i] in "\r\n"
    ensures Parse(k, line + end, resume) == Parse(k, line, resume)
  {
    TrimRightBreaks(line, end);
  }

  lemma {:induction false} TrimIndent(indent: string, line: string)
    requires (forall i :: 0 <= i < |indent| ==> IsSpace(indent[i])) && line != [] && !IsSpace(line[0])
    ensures TrimLeftSpace(indent + line) == line
  {
    if indent == [] {
      assert indent + line == line;
    } else {
      assert (indent + line)[0] == indent[0] && (indent + line)[1..] == indent[1..] + line;
      TrimIndent(indent[1..], line);
    }
  }

  /** Nor does white space before a command in the current spelling. */
  lemma {:induction false} IndentedReadsBack(k: Casing, indent: string, name: string, list: seq<Pair>, data: string, resume: string)
    requires IsKnown(name) && Plain(name) && PlainKeys(list)
    requires forall i :: 0 <= i < |indent| ==> IsSpace(indent[i]) && indent[i] != '\r' && indent[i] != '\n'
    ensures Parse(k, indent + CurrentLine(name, list, data), resume) == Parse(k, CurrentLine(name, list, data), resume)
  {
    var text, esc, line := JoinWith(Items(PROPERTY, list), ','), EscapeData(data), CurrentLine(name, list, data);
    CurrentPieces(list, data);
    OneLinePieces(name, text, esc);
    Untrimmed(":", line);
    CurrentLineHeader(name, text, esc);
    LowerPlain(k, name);
    ParsedByHeader(k, line, false, name + " " + text, esc, name, text, resume);
    IndentedLine(indent, line);
    ParsedWhenIndented(k, indent + line, line, name + " " + text, esc, name, text, resume);
  }

  lemma {:induction false} IndentedLine(indent: string, line: string)
    requires line != [] && line[0] == ':' && !ContainsAny(line, "\r\n")
    requires forall i :: 0 <= i < |indent| ==> IsSpace(indent[i]) && indent[i] != '\r' && indent[i] != '\n'
    ensures !ContainsAny(indent + line, "\r\n") && TrimRight(indent + line, "\r\n") == indent + line && TrimLeftSpace(indent + line) == line
  {
    TrimIndent(indent, line);
    var whole := indent + line;
    assert whole[|whole| - 1] == line[|line| - 1] && line[|line| - 1] in line;
  }

  lemma {:induction false} ParsedWhenIndented(k: Casing, whole: string, line: string, header: string, data: string, name: string, text: string, resume: string)
    requires !ContainsAny(whole, "\r\n") && TrimRight(whole, "\r\n") == whole && TrimLeftSpace(whole) == line
    requires Header(line, line, false) == Some((header, data))
    requires Cut(header, " ") == Parts(name, text, true) && Lower(k, name) == name && IsKnown(name)
    ensures Parse(k, whole, resume) == Some(Command(name, Properties(k, SplitAt(TrimSpace(text), ','), PROPERTY), Unescape(DATA, data)))
  {
    assert Header(whole, line, false) == Header(line, line, false);
  }

  /** Nor does text before one in the legacy spelling. */
  lemma {:induction false} LegacyAfterText(k: Casing, before: string, name: string, list: seq<Pair>, data: string, resume: string)
    requires IsKnown(name) && Plain(name) && ']' !in name && PlainKeys(list)
    requires before != "" && '#' !in before && OneLineOnly(before) && !IsSpace(before[0]) && before[0] != ':'
    ensures Parse(k, before + LegacyLine(name, list, data), resume) == Some(Command(name, Pairs(list), data))
  {
    var text, esc, line := JoinWith(Items(LEGACY, list), ';'), Escape(LEGACY, data), LegacyLine(name, list, data);
    LegacyPieces(list, data);
    OneLinePieces(name, text, esc);
    LegacyLineHeader(name, text, esc);
    LowerPlain(k, name);
    var whole := before + line;
    BeforeMark(before, line);
    assert !ContainsAny(whole, "\r\n");
    assert whole[0] == before[0];
    Untrimmed(before[..1], whole);
    assert !("::" <= whole);
    ParsedByHeader(k, whole, true, name + " " + text, esc, name, text, resume);
  }

  lemma {:induction false} BeforeMark(before: string, line: string)
    requires '#' !in before && "##[" <= line
    ensures Cut(before + line, "##[").after == Cut(line, "##[").after && Cut(before + line, "##[").found
  {
    if before == [] {
      assert before + line == line;
    } else {
      assert (before + line)[0] == before[0] != '#' && (before + line)[1..] == before[1..] + line;
      BeforeMark(before[1..], line);
    }
  }

  /** The commands there are. */
  lemma {:induction false} KnownNames(name: string)
    ensures IsKnown(name) <==>
              name in {"stop-commands", "set-env", "set-output", "save-state", "add-path", "add-mask", "add-matcher", "remove-matcher",
                       "warning", "error", "notice", "debug", "group", "endgroup", "echo"}
  {
  }

  /** Bytes add up, one for each ASCII character and more for any other. */
  lemma {:induction false} Utf8LengthMeans(s: string, c: char)
    ensures Utf8Length([]) == 0
    ensures Utf8Length(s + [c]) - Utf8Length(s) == if c < '\U{80}' then 1 else if c < '\U{800}' then 2 else if c < '\U{10000}' then 3 else 4
  {
    assert (s + [c])[..|s|] == s;
  }
}
