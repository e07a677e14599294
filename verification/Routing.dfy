/** Route patterns: overlap, matching and printing (crates/noxide-admission/src/routing.rs).

    `ident` stands for the contract's identifier grammar; nothing about it is used but that
    identifiers are not empty and hold no slash. */
module Routing {
  import opened Prelude
  import Decimal

  type Grammar = string -> bool

  ghost predicate Sane(ident: Grammar) {
    forall s :: ident(s) ==> s != "" && '/' !in s
  }

  datatype Segment = Static(text: string) | Target

  datatype Route = Route(path: string, hasResource: bool)

  // ----- paths and their parts -----

  /** `split('/')`. */
  function Split(s: string): (parts: seq<string>)
    ensures parts != [] && forall i :: 0 <= i < |parts| ==> '/' !in parts[i]
    decreases |s|
  {
    if s == "" then [""]
    else
      var rest := Split(s[1..]);
      if s[0] == '/' then [""] + rest else [[s[0]] + rest[0]] + rest[1..]
  }

  /** Each part behind a slash. */
  function Join(parts: seq<string>): string {
    if parts == [] then "" else "/" + parts[0] + Join(parts[1..])
  }

  lemma {:induction false} SplitPlain(a: string, rest: string)
    requires '/' !in a
    ensures Split(a + "/" + rest) == [a] + Split(rest)
    decreases |a|
  {
    var s := a + "/" + rest;
    if a == "" {
      assert s[1..] == rest;
    } else {
      assert s[1..] == a[1..] + "/" + rest;
      SplitPlain(a[1..], rest);
      assert [a[0]] + a[1..] == a;
      assert ([a[1..]] + Split(rest))[1..] == Split(rest);
    }
  }

  lemma {:induction false} SplitOne(a: string)
    requires '/' !in a
    ensures Split(a) == [a]
    decreases |a|
  {
    if a != "" {
      SplitOne(a[1..]);
      assert [a[0]] + a[1..] == a;
    }
  }

  lemma {:induction false} SplitJoin(parts: seq<string>)
    requires parts != [] && forall i :: 0 <= i < |parts| ==> '/' !in parts[i]
    ensures Join(parts) != "" && Join(parts)[0] == '/' && Split(Join(parts)[1..]) == parts
    decreases |parts|
  {
    var rest := Join(parts[1..]);
    assert Join(parts)[1..] == parts[0] + rest;
    if |parts| == 1 {
      assert parts[0] + rest == parts[0];
      SplitOne(parts[0]);
    } else {
      SplitJoin(parts[1..]);
      assert rest == "/" + rest[1..];
      assert parts[0] + rest == parts[0] + "/" + rest[1..];
      SplitPlain(parts[0], rest[1..]);
      assert parts == [parts[0]] + parts[1..];
    }
  }

  lemma {:induction false} JoinSplit(s: string)
    ensures Join(Split(s)) == "/" + s
    decreases |s|
  {
    if s != "" {
      JoinSplit(s[1..]);
      var rest := Split(s[1..]);
      if s[0] == '/' {
        assert Split(s)[1..] == rest;
      } else {
        assert Split(s)[1..] == rest[1..];
        assert Join(rest) == "/" + rest[0] + Join(rest[1..]);
        assert Join(rest)[1..] == rest[0] + Join(rest[1..]) && ("/" + s[1..])[1..] == s[1..];
        assert ([s[0]] + rest[0]) + Join(rest[1..]) == [s[0]] + (rest[0] + Join(rest[1..]));
      }
    }
  }

  /** The parts of a request path, if it is one. */
  function Parts(path: string): Option<seq<string>> {
    if path == "" || path[0] != '/' then None
    else if path == "/" then Some([])
    else Some(Split(path[1..]))
  }

  /** How parts are printed: the root is a single slash. */
  function PathOf(parts: seq<string>): string {
    if Join(parts) == "" then "/" else Join(parts)
  }

  lemma PartsOfPath(parts: seq<string>)
    requires forall i :: 0 <= i < |parts| ==> '/' !in parts[i] && parts[i] != ""
    ensures Parts(PathOf(parts)) == Some(parts)
  {
    if parts != [] {
      SplitJoin(parts);
      assert Join(parts)[1] == parts[0][0];
    }
  }

  lemma PathOfParts(path: string)
    requires Parts(path).Some?
    ensures PathOf(Parts(path).value) == path
  {
    if path != "/" {
      JoinSplit(path[1..]);
    }
  }

  // ----- record identifiers -----

  function CanonicalId(s: string): (r: Option<nat>)
    ensures r.Some? ==> 0 < r.value <= I64_MAX && s == Decimal.Print(r.value)
  {
    if s == "" || s[0] == '0' || !Decimal.Digits(s) || Decimal.Value(s) > I64_MAX then None
    else
      PrintOfValue(s);
      Some(Decimal.Value(s))
  }

  lemma {:induction false} PrintOfValue(s: string)
    requires s != "" && s[0] != '0' && Decimal.Digits(s)
    ensures Decimal.Print(Decimal.Value(s)) == s && Decimal.Value(s) > 0
    decreases |s|
  {
    var head, last := s[..|s| - 1], s[|s| - 1];
    assert Decimal.Digit(last);
    if head == "" {
      assert Decimal.Value(s) == last as int - '0' as int && Decimal.Value(s) < 10;
      assert s == [last];
    } else {
      PrintOfValue(head);
      PrintAppends(Decimal.Value(head), last);
      assert s == head + [last];
    }
  }

  lemma PrintAppends(n: nat, c: char)
    requires n > 0 && Decimal.Digit(c)
    ensures Decimal.Print(10 * n + (c as int - '0' as int)) == Decimal.Print(n) + [c]
  {
  }

  lemma {:induction false} PrintStarts(n: nat)
    requires n > 0
    ensures Decimal.Print(n)[0] != '0'
  {
    if n >= 10 {
      PrintStarts(n / 10);
    }
  }

  lemma CanonicalPrint(n: nat)
    requires 0 < n <= I64_MAX
    ensures CanonicalId(Decimal.Print(n)) == Some(n)
  {
    PrintStarts(n);
    Decimal.ValueOfPrint(n);
  }

  lemma DigitsHaveNoSlash(n: nat)
    ensures Decimal.Print(n) != "" && '/' !in Decimal.Print(n)
  {
  }

  // ----- patterns -----

  function SegmentOf(ident: Grammar, part: string): Option<Segment> {
    if |part| >= 2 && part[0] == '{' && part[|part| - 1] == '}' then
      if ident(part[1..|part| - 1]) then Some(Target) else None
    else if ident(part) then Some(Static(part))
    else None
  }

  function Targets(segments: seq<Segment>): nat {
    if segments == [] then 0
    else Targets(segments[..|segments| - 1]) + (if segments[|segments| - 1].Target? then 1 else 0)
  }

  /** A pattern the manifest admits, and its segments. */
  predicate IsPattern(ident: Grammar, route: Route, segments: seq<Segment>) {
    && |route.path| <= 128 && Parts(route.path).Some?
    && |Parts(route.path).value| == |segments| <= 8
    && (forall i :: 0 <= i < |segments| ==> SegmentOf(ident, Parts(route.path).value[i]) == Some(segments[i]))
    && Targets(segments) == if route.hasResource then 1 else 0
  }

  ghost predicate Admits(ident: Grammar, route: Route) {
    exists segments :: IsPattern(ident, route, segments)
  }

  /** What the loop of `path_segments` has read of the parts. */
  predicate Read(ident: Grammar, parts: seq<string>, segments: seq<Segment>) {
    |segments| <= |parts| && forall j :: 0 <= j < |segments| ==> SegmentOf(ident, parts[j]) == Some(segments[j])
  }

  lemma PartRead(ident: Grammar, parts: seq<string>, segments: seq<Segment>, next: Segment)
    requires Read(ident, parts, segments) && |segments| < |parts| && SegmentOf(ident, parts[|segments|]) == Some(next)
    ensures Read(ident, parts, segments + [next])
    ensures Targets(segments + [next]) == Targets(segments) + (if next.Target? then 1 else 0)
  {
    assert (segments + [next])[..|segments|] == segments;
  }

  lemma BadPart(ident: Grammar, route: Route, i: nat)
    requires Parts(route.path).Some? && i < |Parts(route.path).value| && SegmentOf(ident, Parts(route.path).value[i]).None?
    ensures !Admits(ident, route)
  {
  }

  lemma AllPartsRead(ident: Grammar, route: Route, segments: seq<Segment>)
    requires |route.path| <= 128 && Parts(route.path).Some? && |Parts(route.path).value| == |segments|
    requires Read(ident, Parts(route.path).value, segments)
    ensures Admits(ident, route) <==> IsPattern(ident, route, segments)
    ensures IsPattern(ident, route, segments) <==> |segments| <= 8 && Targets(segments) == (if route.hasResource then 1 else 0)
  {
    OnlyPattern(ident, route, segments);
  }

  /** `path_segments`. */
  method PathSegments(ident: Grammar, route: Route) returns (r: Result<seq<Segment>>)
    ensures r.Ok? ==> IsPattern(ident, route, r.value)
    ensures r.Ok? <==> Admits(ident, route)
  {
    if route.path == "" || route.path[0] != '/' || |route.path| > 128 {
      return Err;
    }
    var parts := Parts(route.path).value;
    var segments: seq<Segment> := [];
    var targets := 0;
    for i := 0 to |parts|
      invariant |segments| == i && targets == Targets(segments) && Read(ident, parts, segments)
    {
      var segment := SegmentOf(ident, parts[i]);
      if segment.None? {
        BadPart(ident, route, i);
        return Err;
      }
      PartRead(ident, parts, segments, segment.value);
      if segment.value.Target? {
        targets := targets + 1;
      }
      segments := segments + [segment.value];
    }
    AllPartsRead(ident, route, segments);
    r := if targets == (if route.hasResource then 1 else 0) && |segments| <= 8 then Ok(segments) else Err;
  }

  /** The parts determine the segments. */
  lemma OnlyPattern(ident: Grammar, route: Route, segments: seq<Segment>)
    requires Parts(route.path).Some? && |Parts(route.path).value| == |segments|
    requires forall i :: 0 <= i < |segments| ==> SegmentOf(ident, Parts(route.path).value[i]) == Some(segments[i])
    ensures forall other :: IsPattern(ident, route, other) ==> other == segments
  {
    forall other | IsPattern(ident, route, other) ensures other == segments {
      OnePattern(ident, Parts(route.path).value, segments, other);
    }
  }

  lemma OnePattern(ident: Grammar, parts: seq<string>, a: seq<Segment>, b: seq<Segment>)
    requires |parts| == |a| == |b|
    requires forall i :: 0 <= i < |a| ==> SegmentOf(ident, parts[i]) == Some(a[i])
    requires forall i :: 0 <= i < |b| ==> SegmentOf(ident, parts[i]) == Some(b[i])
    ensures a == b
  {
    forall i | 0 <= i < |a| ensures a[i] == b[i] {
      assert SegmentOf(ident, parts[i]) == Some(a[i]);
    }
  }

  /** A pattern as a manifest writes it: static parts as they are, the parameter's name in braces. */
  function Written(segment: Segment, name: string): string {
    match segment
    case Static(text) => text
    case Target => "{" + name + "}"
  }

  predicate Braced(text: string) {
    text != "" && text[0] == '{' && text[|text| - 1] == '}'
  }

  /** `part` is this segment, and `name` the parameter's. */
  predicate Writes(ident: Grammar, part: string, segment: Segment, name: string) {
    && part == Written(segment, name)
    && match segment
       case Static(text) => ident(text) && !Braced(text)
       case Target => ident(name)
  }

  lemma PartsAreWritten(ident: Grammar, part: string, segment: Segment)
    requires Sane(ident) && !ident("{") && '/' !in part
    ensures SegmentOf(ident, part) == Some(segment) <==> exists name :: Writes(ident, part, segment, name)
  {
    if SegmentOf(ident, part) == Some(segment) {
      if segment.Target? {
        assert part == "{" + part[1..|part| - 1] + "}";
        assert Writes(ident, part, segment, part[1..|part| - 1]);
      } else {
        assert Writes(ident, part, segment, "");
      }
    }
    if name :| Writes(ident, part, segment, name) {
      if segment.Target? {
        assert part[1..|part| - 1] == name;
      }
    }
  }

  ghost predicate PartWrites(ident: Grammar, part: string, segment: Segment) {
    exists name :: Writes(ident, part, segment, name)
  }

  ghost predicate PartsWrite(ident: Grammar, parts: seq<string>, segments: seq<Segment>) {
    |parts| == |segments| && forall i :: 0 <= i < |parts| ==> PartWrites(ident, parts[i], segments[i])
  }

  lemma ReadAreWritten(ident: Grammar, parts: seq<string>, segments: seq<Segment>)
    requires Sane(ident) && !ident("{") && |parts| == |segments| && forall i :: 0 <= i < |parts| ==> '/' !in parts[i]
    ensures Read(ident, parts, segments) <==> PartsWrite(ident, parts, segments)
  {
    forall i | 0 <= i < |parts|
      ensures SegmentOf(ident, parts[i]) == Some(segments[i]) <==> PartWrites(ident, parts[i], segments[i])
    {
      PartsAreWritten(ident, parts[i], segments[i]);
    }
  }

  lemma WrittenParts(ident: Grammar, parts: seq<string>, segments: seq<Segment>)
    requires Sane(ident) && PartsWrite(ident, parts, segments)
    ensures forall i :: 0 <= i < |parts| ==> '/' !in parts[i] && parts[i] != ""
  {
    forall i | 0 <= i < |parts| ensures '/' !in parts[i] && parts[i] != "" {
      assert PartWrites(ident, parts[i], segments[i]);
    }
  }

  /** The patterns a route may have are those written from segments: identifiers, and for a route
      with a resource exactly one named parameter. */
  lemma PatternsAreWritten(ident: Grammar, route: Route, segments: seq<Segment>)
    requires Sane(ident) && !ident("{")
    ensures IsPattern(ident, route, segments) <==>
              && |route.path| <= 128 && |segments| <= 8 && Targets(segments) == (if route.hasResource then 1 else 0)
              && exists parts :: PartsWrite(ident, parts, segments) && route.path == PathOf(parts)
  {
    if IsPattern(ident, route, segments) {
      PathOfParts(route.path);
      ReadAreWritten(ident, Parts(route.path).value, segments);
    }
    if parts :| PartsWrite(ident, parts, segments) && route.path == PathOf(parts) {
      WrittenParts(ident, parts, segments);
      PartsOfPath(parts);
      ReadAreWritten(ident, parts, segments);
    }
  }

  predicate Takes(segment: Segment, part: string) {
    match segment
    case Static(text) => text == part
    case Target => CanonicalId(part).Some?
  }

  /** The path has one part per segment, each taken by it. */
  predicate Matches(segments: seq<Segment>, path: string) {
    && Parts(path).Some? && |Parts(path).value| == |segments|
    && (forall i :: 0 <= i < |segments| ==> Takes(segments[i], Parts(path).value[i]))
  }

  /** The identifier the path carries. */
  function TargetOf(segments: seq<Segment>, parts: seq<string>): Option<nat>
    requires |segments| == |parts|
  {
    if segments == [] then None
    else
      var n := |segments| - 1;
      if segments[n].Target? then CanonicalId(parts[n]) else TargetOf(segments[..n], parts[..n])
  }

  /** `match_path`, after the pattern was read. */
  method MatchPath(segments: seq<Segment>, path: string) returns (r: Option<Option<nat>>)
    ensures r.Some? <==> Matches(segments, path)
    ensures r.Some? ==> r.value == TargetOf(segments, Parts(path).value)
  {
    if path == "" || path[0] != '/' {
      return None;
    }
    var parts := Parts(path).value;
    if |segments| != |parts| {
      return None;
    }
    var target := None;
    for i := 0 to |segments|
      invariant forall j :: 0 <= j < i ==> Takes(segments[j], parts[j])
      invariant target == TargetOf(segments[..i], parts[..i])
    {
      assert segments[..i + 1][..i] == segments[..i] && parts[..i + 1][..i] == parts[..i];
      match segments[i]
      case Static(text) =>
        if text != parts[i] {
          return None;
        }
      case Target =>
        var id := CanonicalId(parts[i]);
        if id.None? {
          return None;
        }
        target := id;
    }
    assert segments[..|segments|] == segments && parts[..|parts|] == parts;
    r := Some(target);
  }

  function Printed(segment: Segment, id: nat): string {
    match segment
    case Static(text) => text
    case Target => Decimal.Print(id)
  }

  function PrintAll(segments: seq<Segment>, id: nat): (parts: seq<string>)
    ensures |parts| == |segments| && forall i :: 0 <= i < |parts| ==> parts[i] == Printed(segments[i], id)
  {
    seq(|segments|, i requires 0 <= i < |segments| => Printed(segments[i], id))
  }

  /** A target fits the route: one exactly where the pattern has a parameter, in range. */
  predicate TargetFits(hasResource: bool, target: Option<nat>) {
    (hasResource <==> target.Some?) && (target.Some? ==> 0 < target.value <= I64_MAX)
  }

  function IdOf(target: Option<nat>): nat {
    if target.Some? then target.value else 0
  }

  /** `resolve_path`, after the pattern was read. */
  method ResolvePath(segments: seq<Segment>, hasResource: bool, target: Option<nat>) returns (r: Result<string>)
    requires Targets(segments) == if hasResource then 1 else 0
    ensures r == if TargetFits(hasResource, target) then Ok(PathOf(PrintAll(segments, IdOf(target)))) else Err
  {
    if hasResource != target.Some? || (target.Some? && (target.value == 0 || target.value > I64_MAX)) {
      return Err;
    }
    assert TargetFits(hasResource, target);
    var path := "";
    ghost var printed := PrintAll(segments, IdOf(target));
    for i := 0 to |segments|
      invariant path == Join(printed[..i])
    {
      JoinLast(printed, i);
      path := path + "/";
      match segments[i]
      case Static(text) => path := path + text;
      case Target =>
        if target.None? {
          SomeTarget(segments, i);
          assert false;
        }
        path := path + Decimal.Print(target.value);
    }
    assert printed[..|segments|] == printed;
    if path == "" {
      path := "/";
    }
    assert path == PathOf(printed);
    r := Ok(path);
  }

  lemma {:induction false} JoinAppend(a: seq<string>, b: string)
    ensures Join(a + [b]) == Join(a) + "/" + b
    decreases |a|
  {
    if a == [] {
      assert [b][1..] == [];
      assert Join([b]) == "/" + b + "";
    } else {
      assert (a + [b])[1..] == a[1..] + [b];
      JoinAppend(a[1..], b);
    }
  }

  lemma JoinLast(parts: seq<string>, i: nat)
    requires i < |parts|
    ensures Join(parts[..i + 1]) == Join(parts[..i]) + "/" + parts[i]
  {
    assert parts[..i + 1] == parts[..i] + [parts[i]];
    JoinAppend(parts[..i], parts[i]);
  }

  lemma {:induction false} SomeTarget(segments: seq<Segment>, i: nat)
    requires i < |segments| && segments[i].Target?
    ensures Targets(segments) > 0
    decreases |segments|
  {
    if i < |segments| - 1 {
      SomeTarget(segments[..|segments| - 1], i);
    }
  }

  /** With one parameter, the identifier found is that parameter's, wherever it stands. */
  lemma {:induction false} TargetAt(segments: seq<Segment>, parts: seq<string>, i: nat)
    requires |segments| == |parts| && i < |segments| && segments[i].Target? && Targets(segments) <= 1
    ensures TargetOf(segments, parts) == CanonicalId(parts[i])
    decreases |segments|
  {
    var n := |segments| - 1;
    if i < n {
      SomeTarget(segments[..n], i);
      TargetAt(segments[..n], parts[..n], i);
    }
  }

  lemma {:induction false} NoTarget(segments: seq<Segment>, parts: seq<string>)
    requires |segments| == |parts| && Targets(segments) == 0
    ensures TargetOf(segments, parts) == None && forall i :: 0 <= i < |segments| ==> !segments[i].Target?
    decreases |segments|
  {
    if segments != [] {
      NoTarget(segments[..|segments| - 1], parts[..|segments| - 1]);
    }
  }

  lemma {:induction false} HasTarget(segments: seq<Segment>) returns (i: nat)
    requires Targets(segments) > 0
    ensures i < |segments| && segments[i].Target?
    decreases |segments|
  {
    i := |segments| - 1;
    if !segments[i].Target? {
      i := HasTarget(segments[..i]);
    }
  }

  // ----- the laws -----

  /** Static texts are identifiers, so no part is empty or holds a slash. */
  lemma PrintedParts(ident: Grammar, route: Route, segments: seq<Segment>, id: nat)
    requires Sane(ident) && IsPattern(ident, route, segments)
    ensures forall i :: 0 <= i < |segments| ==> PrintAll(segments, id)[i] != "" && '/' !in PrintAll(segments, id)[i]
  {
    forall i | 0 <= i < |segments| ensures PrintAll(segments, id)[i] != "" && '/' !in PrintAll(segments, id)[i] {
      DigitsHaveNoSlash(id);
      assert SegmentOf(ident, Parts(route.path).value[i]) == Some(segments[i]);
    }
  }

  /** Printing a valid reference and matching it gives the target back. */
  lemma PrintThenMatch(ident: Grammar, route: Route, segments: seq<Segment>, target: Option<nat>)
    requires Sane(ident) && IsPattern(ident, route, segments) && TargetFits(route.hasResource, target)
    ensures var path := PathOf(PrintAll(segments, IdOf(target)));
            Matches(segments, path) && TargetOf(segments, Parts(path).value) == target
  {
    var parts := PrintAll(segments, IdOf(target));
    PrintedParts(ident, route, segments, IdOf(target));
    PartsOfPath(parts);
    if target.Some? {
      CanonicalPrint(target.value);
      var i := HasTarget(segments);
      TargetAt(segments, parts, i);
    } else {
      NoTarget(segments, parts);
    }
  }

  /** A matched path carries a valid target, and printing that target gives the path back. */
  lemma MatchThenPrint(ident: Grammar, route: Route, segments: seq<Segment>, path: string)
    requires IsPattern(ident, route, segments) && Matches(segments, path)
    ensures var target := TargetOf(segments, Parts(path).value);
            TargetFits(route.hasResource, target) && PathOf(PrintAll(segments, IdOf(target))) == path
  {
    var parts := Parts(path).value;
    var target := TargetOf(segments, parts);
    if route.hasResource {
      var i := HasTarget(segments);
      TargetAt(segments, parts, i);
      assert Takes(segments[i], parts[i]);
    } else {
      NoTarget(segments, parts);
    }
    forall i | 0 <= i < |segments| ensures PrintAll(segments, IdOf(target))[i] == parts[i] {
      assert Takes(segments[i], parts[i]);
      if segments[i].Target? {
        SomeTarget(segments, i);
        TargetAt(segments, parts, i);
      }
    }
    assert PrintAll(segments, IdOf(target)) == parts;
    PathOfParts(path);
  }

  predicate Compatible(a: Segment, b: Segment) {
    match (a, b)
    case (Static(x), Static(y)) => x == y
    case (Target, Target) => true
    case (Static(x), Target) => CanonicalId(x).Some?
    case (Target, Static(y)) => CanonicalId(y).Some?
  }

  /** `paths_overlap` on two admitted patterns. */
  predicate Overlap(left: seq<Segment>, right: seq<Segment>) {
    |left| == |right| && (forall i :: 0 <= i < |left| ==> Compatible(left[i], right[i]))
  }

  function Common(a: Segment, b: Segment): string {
    if a.Static? then a.text else if b.Static? then b.text else Decimal.Print(1)
  }

  /** Two admitted patterns overlap exactly when some request path matches both. */
  lemma OverlapIsSharedPath(ident: Grammar, l: Route, left: seq<Segment>, r: Route, right: seq<Segment>)
    requires Sane(ident) && IsPattern(ident, l, left) && IsPattern(ident, r, right)
    ensures Overlap(left, right) <==> exists path :: Matches(left, path) && Matches(right, path)
  {
    if Overlap(left, right) {
      var parts := seq(|left|, i requires 0 <= i < |left| => Common(left[i], right[i]));
      forall i | 0 <= i < |parts|
        ensures parts[i] != "" && '/' !in parts[i] && Takes(left[i], parts[i]) && Takes(right[i], parts[i])
      {
        assert Compatible(left[i], right[i]);
        assert SegmentOf(ident, Parts(l.path).value[i]) == Some(left[i]);
        assert SegmentOf(ident, Parts(r.path).value[i]) == Some(right[i]);
        DigitsHaveNoSlash(1);
        CanonicalPrint(1);
      }
      PartsOfPath(parts);
      assert Matches(left, PathOf(parts)) && Matches(right, PathOf(parts));
    }
    if path :| Matches(left, path) && Matches(right, path) {
      forall i | 0 <= i < |left| ensures Compatible(left[i], right[i]) {
        assert Takes(left[i], Parts(path).value[i]) && Takes(right[i], Parts(path).value[i]);
      }
    }
  }

  /** Patterns admitted together: pairwise without overlap, so a path has at most one route. */
  lemma AtMostOneRoute(ident: Grammar, routes: seq<Route>, patterns: seq<seq<Segment>>, path: string, i: nat, j: nat)
    requires Sane(ident) && |routes| == |patterns| && i < |routes| && j < |routes|
    requires forall k :: 0 <= k < |routes| ==> IsPattern(ident, routes[k], patterns[k])
    requires forall a, b :: 0 <= a < |routes| && 0 <= b < |routes| && a != b ==> !Overlap(patterns[a], patterns[b])
    requires Matches(patterns[i], path) && Matches(patterns[j], path)
    ensures i == j
  {
    OverlapIsSharedPath(ident, routes[i], patterns[i], routes[j], patterns[j]);
  }
}
