/**
  Resolving a name inside an unpacked action tree whose symbolic links are only known as a
  map from link to target.  Paths use '/', as on Unix.
 */
module TreeLink {
  import opened Options

  const MAX_LINKS: nat := 255

  // ---- paths ----

  /** Splitting at every slash, as strings.Split does: never empty. */
  function Split(s: string): (parts: seq<string>)
    ensures |parts| >= 1
  {
    if s == [] then [""]
    else
      var rest := Split(s[1..]);
      if s[0] == '/' then [""] + rest else [[s[0]] + rest[0]] + rest[1..]
  }

  function Join(parts: seq<string>): string {
    if parts == [] then ""
    else if |parts| == 1 then parts[0]
    else parts[0] + "/" + Join(parts[1..])
  }

  /** A component that names something: not empty, not a dot, no slash in it. */
  predicate Proper(part: string) {
    part != "" && part != "." && part != ".." && '/' !in part
  }

  predicate AllProper(parts: seq<string>) {
    forall i :: 0 <= i < |parts| ==> Proper(parts[i])
  }

  /** What cleaning makes of the resolved components. */
  function PathOf(resolved: seq<string>): string {
    if resolved == [] then "." else Join(resolved)
  }

  /** The name does not climb above where it starts. */
  predicate StaysBelow(parts: seq<string>, depth: nat) {
    if parts == [] then true
    else if parts[0] == "" || parts[0] == "." then StaysBelow(parts[1..], depth)
    else if parts[0] == ".." then depth > 0 && StaysBelow(parts[1..], depth - 1)
    else StaysBelow(parts[1..], depth + 1)
  }

  predicate IsLocal(name: string) {
    name != "" && name[0] != '/' && StaysBelow(Split(name), 0)
  }

  lemma {:induction false} SplitComponent(a: string, s: string)
    requires '/' !in a
    ensures Split(a + s) == [a + Split(s)[0]] + Split(s)[1..]
  {
    if a == [] {
      assert a + s == s && a + Split(s)[0] == Split(s)[0];
    } else {
      assert (a + s)[1..] == a[1..] + s;
      SplitComponent(a[1..], s);
      assert [a[0]] + (a[1..] + Split(s)[0]) == a + Split(s)[0];
    }
  }

  /** Splitting takes a joined path apart again. */
  lemma {:induction false} SplitJoin(parts: seq<string>)
    requires parts != [] && forall i :: 0 <= i < |parts| ==> '/' !in parts[i]
    ensures Split(Join(parts)) == parts
  {
    if |parts| == 1 {
      SplitComponent(parts[0], "");
      assert parts[0] + "" == parts[0];
    } else {
      SplitJoin(parts[1..]);
      var rest := "/" + Join(parts[1..]);
      assert rest[1..] == Join(parts[1..]);
      assert Split(rest) == [""] + parts[1..];
      assert parts[0] + Split(rest)[0] == parts[0];
      SplitComponent(parts[0], rest);
      assert parts[0] + rest == parts[0] + "/" + Join(parts[1..]);
    }
  }

  // ---- resolution ----

  /** Components so far, and links followed so far. */
  datatype Progress = Progress(resolved: seq<string>, count: nat)

  predicate Followable(target: string) {
    target != "" && target[0] != '/'
  }

  /** Resolution from a point on; every link followed uses up the budget, or else the parts get fewer. */
  function Resolve(parts: seq<string>, p: Progress, links: map<string, string>): (r: Option<Progress>)
    requires p.count <= MAX_LINKS
    ensures r.Some? ==> p.count <= r.value.count <= MAX_LINKS
    decreases MAX_LINKS - p.count, |parts|
  {
    if parts == [] then Some(p)
    else
      var part, rest := parts[0], parts[1..];
      if part == "" || part == "." then Resolve(rest, p, links)
      else if part == ".." then
        if p.resolved == [] then None
        else Resolve(rest, p.(resolved := p.resolved[..|p.resolved| - 1]), links)
      else
        var path := Join(p.resolved + [part]);
        if path !in links then Resolve(rest, p.(resolved := p.resolved + [part]), links)
        else if !Followable(links[path]) || p.count + 1 > MAX_LINKS then None
        else Resolve(Split(links[path]) + rest, p.(count := p.count + 1), links)
  }

  function ResolvedPath(name: string, links: map<string, string>): Option<string> {
    if !IsLocal(name) then None
    else
      match Resolve(Split(name), Progress([], 0), links)
      case None => None
      case Some(p) => Some(PathOf(p.resolved))
  }

  method ResolveTreeLink(name: string, links: map<string, string>) returns (r: Option<string>)
    ensures r == ResolvedPath(name, links)
  {
    if !IsLocal(name) {
      return None;
    }
    var parts := Split(name);
    var resolved: seq<string> := [];
    var count := 0;
    while |parts| > 0
      invariant count <= MAX_LINKS
      invariant Resolve(Split(name), Progress([], 0), links) == Resolve(parts, Progress(resolved, count), links)
      decreases MAX_LINKS - count, |parts|
    {
      var part := parts[0];
      parts := parts[1..];
      if part == "" || part == "." {
        continue;
      }
      if part == ".." {
        if |resolved| == 0 {
          return None;
        }
        resolved := resolved[..|resolved| - 1];
        continue;
      }
      var path := Join(resolved + [part]);
      if path !in links {
        resolved := resolved + [part];
        continue;
      }
      count := count + 1;
      if links[path] == "" || links[path][0] == '/' || count > MAX_LINKS {
        return None;
      }
      parts := Split(links[path]) + parts;
    }
    return Some(PathOf(resolved));
  }

  // ---- what a resolved path is ----

  /** Proper components, and no link on the way to them or at their end. */
  ghost predicate LinkFree(resolved: seq<string>, links: map<string, string>) {
    && AllProper(resolved)
    && forall k :: 1 <= k <= |resolved| ==> Join(resolved[..k]) !in links
  }

  lemma {:induction false} SplitHasNoSlash(s: string)
    ensures forall i :: 0 <= i < |Split(s)| ==> '/' !in Split(s)[i]
  {
    if s != [] { SplitHasNoSlash(s[1..]); }
  }

  lemma {:induction false} ResolveLinkFree(parts: seq<string>, p: Progress, links: map<string, string>)
    requires p.count <= MAX_LINKS && LinkFree(p.resolved, links)
    requires forall i :: 0 <= i < |parts| ==> '/' !in parts[i]
    requires Resolve(parts, p, links).Some?
    ensures LinkFree(Resolve(parts, p, links).value.resolved, links)
    decreases MAX_LINKS - p.count, |parts|
  {
    if parts != [] {
      var part, rest := parts[0], parts[1..];
      if part == "" || part == "." {
        ResolveLinkFree(rest, p, links);
      } else if part == ".." {
        var shorter := p.resolved[..|p.resolved| - 1];
        assert forall k :: 1 <= k <= |shorter| ==> shorter[..k] == p.resolved[..k];
        ResolveLinkFree(rest, p.(resolved := shorter), links);
      } else {
        var longer := p.resolved + [part];
        var path := Join(longer);
        if path !in links {
          assert forall k :: 1 <= k < |longer| ==> longer[..k] == p.resolved[..k];
          assert longer[..|longer|] == longer;
          ResolveLinkFree(rest, p.(resolved := longer), links);
        } else {
          SplitHasNoSlash(links[path]);
          ResolveLinkFree(Split(links[path]) + rest, p.(count := p.count + 1), links);
        }
      }
    }
  }

  /** Resolving components that hold no link leaves them as they are. */
  lemma {:induction false} ResolveFixed(done: seq<string>, parts: seq<string>, links: map<string, string>)
    requires LinkFree(done + parts, links)
    ensures Resolve(parts, Progress(done, 0), links) == Some(Progress(done + parts, 0))
    decreases |parts|
  {
    if parts == [] {
      assert done + parts == done;
    } else {
      var longer := done + [parts[0]];
      assert longer + parts[1..] == done + parts;
      assert (done + parts)[..|longer|] == longer;
      assert (done + parts)[|done|] == parts[0];
      ResolveFixed(longer, parts[1..], links);
    }
  }

  lemma {:induction false} ProperStaysBelow(parts: seq<string>, depth: nat)
    requires AllProper(parts)
    ensures StaysBelow(parts, depth)
  {
    if parts != [] { ProperStaysBelow(parts[1..], depth + 1); }
  }

  lemma {:induction false} JoinProper(parts: seq<string>)
    requires parts != [] && AllProper(parts)
    ensures Join(parts) != "" && Join(parts)[0] != '/'
  {
    assert parts[0][0] in parts[0];
  }

  /** A resolved name is the path of link-free components inside the tree. */
  lemma {:induction false} ResolvedIsLinkFree(name: string, links: map<string, string>) returns (resolved: seq<string>)
    requires ResolvedPath(name, links).Some?
    ensures LinkFree(resolved, links) && ResolvedPath(name, links) == Some(PathOf(resolved))
    ensures IsLocal(PathOf(resolved))
  {
    SplitHasNoSlash(name);
    ResolveLinkFree(Split(name), Progress([], 0), links);
    resolved := Resolve(Split(name), Progress([], 0), links).value.resolved;
    if resolved == [] {
      assert Split(".") == ["."] by { SplitComponent(".", ""); assert "." + "" == "."; }
      assert StaysBelow([], 0) && ["."][1..] == [];
    } else {
      SplitJoin(resolved);
      JoinProper(resolved);
      ProperStaysBelow(resolved, 0);
    }
  }

  /** Resolving is idempotent: the result resolves to itself. */
  lemma {:induction false} ResolvingTwice(name: string, links: map<string, string>, path: string)
    requires ResolvedPath(name, links) == Some(path)
    ensures ResolvedPath(path, links) == Some(path)
  {
    var resolved := ResolvedIsLinkFree(name, links);
    if resolved == [] {
      assert Split(".") == ["."] by { SplitComponent(".", ""); assert "." + "" == "."; }
      assert ["."][1..] == [];
      assert Resolve([], Progress([], 0), links) == Some(Progress([], 0));
    } else {
      SplitJoin(resolved);
      assert [] + resolved == resolved;
      ResolveFixed([], resolved, links);
    }
  }

  /** Resolution goes component by component: a path resolves by resolving its front first. */
  lemma {:induction false} ResolveInTurn(a: seq<string>, b: seq<string>, p: Progress, links: map<string, string>)
    requires p.count <= MAX_LINKS
    ensures Resolve(a + b, p, links) ==
              match Resolve(a, p, links)
              case None => None
              case Some(q) => Resolve(b, q, links)
    decreases MAX_LINKS - p.count, |a|
  {
    if a == [] {
      assert a + b == b;
    } else {
      var part, rest := a[0], a[1..];
      assert (a + b)[0] == part && (a + b)[1..] == rest + b;
      if part == "" || part == "." {
        ResolveInTurn(rest, b, p, links);
      } else if part == ".." {
        if p.resolved != [] {
          ResolveInTurn(rest, b, p.(resolved := p.resolved[..|p.resolved| - 1]), links);
        }
      } else {
        var path := Join(p.resolved + [part]);
        if path !in links {
          ResolveInTurn(rest, b, p.(resolved := p.resolved + [part]), links);
        } else if Followable(links[path]) && p.count + 1 <= MAX_LINKS {
          assert Split(links[path]) + (rest + b) == (Split(links[path]) + rest) + b;
          ResolveInTurn(Split(links[path]) + rest, b, p.(count := p.count + 1), links);
        }
      }
    }
  }

  // ---- the laws of links ----

  /** Where a path leads by its components alone, from `done` on: dots are dropped, ".." goes up, or nowhere above the root. */
  function Clean(parts: seq<string>, done: seq<string>): Option<seq<string>> {
    if parts == [] then Some(done)
    else if parts[0] == "" || parts[0] == "." then Clean(parts[1..], done)
    else if parts[0] == ".." then if done == [] then None else Clean(parts[1..], done[..|done| - 1])
    else Clean(parts[1..], done + [parts[0]])
  }

  /** Proper components lead to themselves. */
  lemma {:induction false} CleanProper(parts: seq<string>, done: seq<string>)
    requires AllProper(parts)
    ensures Clean(parts, done) == Some(done + parts)
  {
    if parts == [] {
      assert done + parts == done;
    } else {
      CleanProper(parts[1..], done + [parts[0]]);
      assert (done + [parts[0]]) + parts[1..] == done + parts;
    }
  }

  /** Going down and up again leads nowhere else. */
  lemma {:induction false} CleanDownUp(part: string, rest: seq<string>, done: seq<string>)
    requires Proper(part)
    ensures Clean([part, ".."] + rest, done) == Clean(rest, done)
  {
    var all := [part, ".."] + rest;
    assert all[1..] == [".."] + rest && all[1..][1..] == rest;
    assert (done + [part])[..|done|] == done;
  }

  /** A name stays below where it starts exactly when it leads somewhere. */
  lemma {:induction false} CleanIffBelow(parts: seq<string>, done: seq<string>)
    ensures Clean(parts, done).Some? <==> StaysBelow(parts, |done|)
    decreases |parts|
  {
    if parts != [] {
      if parts[0] == "" || parts[0] == "." {
        CleanIffBelow(parts[1..], done);
      } else if parts[0] == ".." {
        if done != [] { CleanIffBelow(parts[1..], done[..|done| - 1]); }
      } else {
        CleanIffBelow(parts[1..], done + [parts[0]]);
      }
    }
  }

  /** A name is resolved at all only if it is not empty, not absolute, and does not lead above the root by itself. */
  lemma {:induction false} LocalNames(name: string, links: map<string, string>)
    ensures IsLocal(name) <==> name != "" && name[0] != '/' && Clean(Split(name), []).Some?
    ensures !IsLocal(name) ==> ResolvedPath(name, links).None?
  {
    CleanIffBelow(Split(name), []);
  }

  /** None of the places the path passes from `done` on is a link. */
  ghost predicate NoLinkOnTheWay(parts: seq<string>, done: seq<string>, links: map<string, string>) {
    forall k :: 0 <= k <= |parts| ==> UnlinkedAfter(parts, k, done, links)
  }

  ghost predicate UnlinkedAfter(parts: seq<string>, k: int, done: seq<string>, links: map<string, string>)
    requires 0 <= k <= |parts|
  {
    var place := Clean(parts[..k], done);
    place.Some? && place.value != [] ==> Join(place.value) !in links
  }

  lemma {:induction false} NoLinkFurther(parts: seq<string>, done: seq<string>, links: map<string, string>, next: seq<string>)
    requires parts != [] && NoLinkOnTheWay(parts, done, links)
    requires forall more :: Clean([parts[0]] + more, done) == Clean(more, next)
    ensures NoLinkOnTheWay(parts[1..], next, links)
  {
    var rest := parts[1..];
    forall k | 0 <= k <= |rest| ensures UnlinkedAfter(rest, k, next, links) {
      assert parts[..k + 1] == [parts[0]] + rest[..k];
      assert UnlinkedAfter(parts, k + 1, done, links);
    }
  }

  /** What a first component does to a path. */
  lemma {:induction false} CleanFirst(part: string, done: seq<string>)
    ensures part == "" || part == "." ==> forall more :: Clean([part] + more, done) == Clean(more, done)
    ensures part == ".." && done != [] ==> forall more :: Clean([part] + more, done) == Clean(more, done[..|done| - 1])
    ensures part != "" && part != "." && part != ".." ==> forall more :: Clean([part] + more, done) == Clean(more, done + [part])
  {
    forall more: seq<string> ensures ([part] + more)[1..] == more {
    }
  }

  /** A path with no link on its way resolves to where its components lead, and to nothing exactly if they lead nowhere. */
  lemma {:induction false} UnlinkedResolves(parts: seq<string>, done: seq<string>, count: nat, links: map<string, string>)
    requires count <= MAX_LINKS && NoLinkOnTheWay(parts, done, links)
    ensures Resolve(parts, Progress(done, count), links) ==
              match Clean(parts, done) case None => None case Some(place) => Some(Progress(place, count))
    decreases |parts|
  {
    if parts != [] {
      var part := parts[0];
      CleanFirst(part, done);
      if part == "" || part == "." {
        NoLinkFurther(parts, done, links, done);
        UnlinkedResolves(parts[1..], done, count, links);
      } else if part == ".." {
        if done != [] {
          NoLinkFurther(parts, done, links, done[..|done| - 1]);
          UnlinkedResolves(parts[1..], done[..|done| - 1], count, links);
        }
      } else {
        NoLinkFurther(parts, done, links, done + [part]);
        assert UnlinkedAfter(parts[1..], 0, done + [part], links);
        assert parts[1..][..0] == [] && Clean([], done + [part]) == Some(done + [part]);
        UnlinkedResolves(parts[1..], done + [part], count, links);
      }
    }
  }

  /** A local name with no link on its way resolves to its cleaned self. */
  lemma {:induction false} UnlinkedName(name: string, links: map<string, string>)
    requires IsLocal(name) && NoLinkOnTheWay(Split(name), [], links)
    ensures Clean(Split(name), []).Some? && ResolvedPath(name, links) == Some(PathOf(Clean(Split(name), []).value))
  {
    CleanIffBelow(Split(name), []);
    UnlinkedResolves(Split(name), [], 0, links);
  }

  /**
    The law of links: a link among link-free components stands for its target, read from the
    directory the link is in; following it uses up one of the links allowed, and a target that is
    empty or absolute, or one link too many, leads nowhere.
   */
  lemma {:induction false} LinkStandsForTarget(dir: seq<string>, link: string, rest: seq<string>, count: nat, links: map<string, string>)
    requires LinkFree(dir, links) && Proper(link) && Join(dir + [link]) in links && count <= MAX_LINKS
    ensures var target := links[Join(dir + [link])];
            Resolve(dir + [link] + rest, Progress([], count), links) ==
              if target == "" || target[0] == '/' || count == 255 then None
              else Resolve(dir + Split(target) + rest, Progress([], count + 1), links)
  {
    var target := links[Join(dir + [link])];
    AtDir(dir, [link] + rest, count, links);
    assert dir + [link] + rest == dir + ([link] + rest);
    assert ([link] + rest)[1..] == rest;
    if Followable(target) && count < MAX_LINKS {
      AtDir(dir, Split(target) + rest, count + 1, links);
      assert dir + Split(target) + rest == dir + (Split(target) + rest);
    }
  }

  /** Link-free components are passed as they are. */
  lemma {:induction false} AtDir(dir: seq<string>, rest: seq<string>, count: nat, links: map<string, string>)
    requires LinkFree(dir, links) && count <= MAX_LINKS
    ensures Resolve(dir + rest, Progress([], count), links) == Resolve(rest, Progress(dir, count), links)
  {
    ResolveInTurn(dir, rest, Progress([], count), links);
    CleanProper(dir, []);
    assert [] + dir == dir;
    forall k | 0 <= k <= |dir| ensures UnlinkedAfter(dir, k, [], links) {
      CleanProper(dir[..k], []);
      assert [] + dir[..k] == dir[..k];
    }
    UnlinkedResolves(dir, [], count, links);
  }

  /** Having followed fewer links before changes nothing but the count. */
  lemma {:induction false} FewerFollowed(parts: seq<string>, p: Progress, links: map<string, string>)
    requires p.count < MAX_LINKS && Resolve(parts, p.(count := p.count + 1), links).Some?
    ensures var r := Resolve(parts, p.(count := p.count + 1), links).value;
            r.count > 0 && Resolve(parts, p, links) == Some(r.(count := r.count - 1))
    decreases MAX_LINKS - p.count, |parts|
  {
    if parts != [] {
      var part, rest := parts[0], parts[1..];
      if part == "" || part == "." {
        FewerFollowed(rest, p, links);
      } else if part == ".." {
        FewerFollowed(rest, p.(resolved := p.resolved[..|p.resolved| - 1]), links);
      } else {
        var path := Join(p.resolved + [part]);
        if path !in links {
          FewerFollowed(rest, p.(resolved := p.resolved + [part]), links);
        } else {
          FewerFollowed(Split(links[path]) + rest, p.(count := p.count + 1), links);
        }
      }
    }
  }

  /** For names: a path through a link resolves to what the path through its target does. */
  lemma {:induction false} LinkedName(dir: seq<string>, link: string, rest: seq<string>, links: map<string, string>)
    requires LinkFree(dir, links) && Proper(link) && Join(dir + [link]) in links && Followable(links[Join(dir + [link])])
    requires forall i :: 0 <= i < |rest| ==> '/' !in rest[i]
    requires ResolvedPath(Join(dir + [link] + rest), links).Some? && IsLocal(Join(dir + Split(links[Join(dir + [link])]) + rest))
    ensures ResolvedPath(Join(dir + [link] + rest), links) == ResolvedPath(Join(dir + Split(links[Join(dir + [link])]) + rest), links)
  {
    var target := links[Join(dir + [link])];
    var from, to := dir + [link] + rest, dir + Split(target) + rest;
    SplitHasNoSlash(target);
    SplitJoin(from);
    SplitJoin(to);
    LinkStandsForTarget(dir, link, rest, 0, links);
    FewerFollowed(to, Progress([], 0), links);
  }

  lemma {:induction false} CleanInTurn(a: seq<string>, b: seq<string>, done: seq<string>)
    ensures Clean(a + b, done) == match Clean(a, done) case None => None case Some(place) => Clean(b, place)
    decreases |a|
  {
    if a == [] {
      assert a + b == b;
    } else {
      assert (a + b)[0] == a[0] && (a + b)[1..] == a[1..] + b;
      if a[0] == "" || a[0] == "." {
        CleanInTurn(a[1..], b, done);
      } else if a[0] == ".." {
        if done != [] { CleanInTurn(a[1..], b, done[..|done| - 1]); }
      } else {
        CleanInTurn(a[1..], b, done + [a[0]]);
      }
    }
  }

  /** Where a path with no link on its way leads, no link is on the way either. */
  lemma {:induction false} PlaceLinkFree(parts: seq<string>, links: map<string, string>)
    requires NoLinkOnTheWay(parts, [], links) && (forall i :: 0 <= i < |parts| ==> '/' !in parts[i]) && Clean(parts, []).Some?
    ensures LinkFree(Clean(parts, []).value, links)
  {
    UnlinkedResolves(parts, [], 0, links);
    ResolveLinkFree(parts, Progress([], 0), links);
  }

  lemma {:induction false} NoLinkBefore(parts: seq<string>, n: nat, links: map<string, string>)
    requires n <= |parts|
    ensures NoLinkOnTheWay(parts[..n], [], links) <==> forall k :: 0 <= k <= n ==> UnlinkedAfter(parts, k, [], links)
  {
    forall k | 0 <= k <= n ensures UnlinkedAfter(parts[..n], k, [], links) <==> UnlinkedAfter(parts, k, [], links) {
      assert parts[..n][..k] == parts[..k];
    }
  }

  /** A path with a link on its way comes to a first one, by components that lead to a link-free directory. */
  lemma {:induction false} FirstLink(parts: seq<string>, n: nat, links: map<string, string>) returns (k: nat)
    requires n <= |parts| && (forall i :: 0 <= i < |parts| ==> '/' !in parts[i]) && !NoLinkOnTheWay(parts[..n], [], links)
    ensures k < n && NoLinkOnTheWay(parts[..k], [], links) && Clean(parts[..k], []).Some?
    ensures Proper(parts[k]) && Join(Clean(parts[..k], []).value + [parts[k]]) in links
  {
    NoLinkBefore(parts, n, links);
    if n == 0 {
      assert false;
    } else {
      NoLinkBefore(parts, n - 1, links);
      if !NoLinkOnTheWay(parts[..n - 1], [], links) {
        k := FirstLink(parts, n - 1, links);
      } else {
        k := n - 1;
        assert !UnlinkedAfter(parts, n, [], links) && UnlinkedAfter(parts, k, [], links);
        assert parts[..n] == parts[..k] + [parts[k]] && [parts[k]][1..] == [];
        CleanInTurn(parts[..k], [parts[k]], []);
        PlaceLinkFree(parts[..k], links);
      }
    }
  }

  /**
    The law in general, which with `UnlinkedResolves` decides every resolution: the first link on
    a path stands for its target, read from the directory the components before it lead to.
   */
  lemma {:induction false} FirstLinkFollowed(parts: seq<string>, k: nat, count: nat, links: map<string, string>)
    requires k < |parts| && count <= MAX_LINKS && (forall i :: 0 <= i < |parts| ==> '/' !in parts[i])
    requires NoLinkOnTheWay(parts[..k], [], links) && Clean(parts[..k], []).Some?
    requires Proper(parts[k]) && Join(Clean(parts[..k], []).value + [parts[k]]) in links
    ensures var dir := Clean(parts[..k], []).value;
            var target := links[Join(dir + [parts[k]])];
            Resolve(parts, Progress([], count), links) ==
              if target == "" || target[0] == '/' || count == 255 then None
              else Resolve(dir + Split(target) + parts[k + 1..], Progress([], count + 1), links)
  {
    var dir, rest := Clean(parts[..k], []).value, parts[k..];
    assert parts == parts[..k] + rest && rest == [parts[k]] + parts[k + 1..];
    UnlinkedResolves(parts[..k], [], count, links);
    ResolveInTurn(parts[..k], rest, Progress([], count), links);
    PlaceLinkFree(parts[..k], links);
    AtDir(dir, rest, count, links);
    assert dir + rest == dir + [parts[k]] + parts[k + 1..];
    LinkStandsForTarget(dir, parts[k], parts[k + 1..], count, links);
  }
}
