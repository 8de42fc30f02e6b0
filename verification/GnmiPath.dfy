/**
 gNMI paths as text (codec_gnmi.go), the sensor paths a subscription is configured with,
 and the filter on received updates (xport_gnmi.go).
 */
module GnmiPath {
  import opened Common

  /** An element of a path: its name and its filters, `None` for the nil map. */
  datatype Elem = Elem(name: string, key: Option<map<string, string>>)

  /** A sensor path: origin, elements, and the interval in seconds, 0 for "on change" and -1 for none. */
  datatype Sensor = Sensor(origin: string, elems: seq<Elem>, interval: real)

  // ---------------------------------------------------------------------------
  // Text

  function Index(s: string, c: char): (i: nat)
    ensures i <= |s| && (i < |s| ==> s[i] == c) && forall j | 0 <= j < i :: s[j] != c
  {
    if s == "" || s[0] == c then 0 else 1 + Index(s[1..], c)
  }

  predicate Free(s: string, c: char) {
    c !in s
  }

  function Split(s: string, c: char): (r: seq<string>)
    ensures r != []
    decreases |s|
  {
    var i := Index(s, c);
    if i == |s| then [s] else [s[..i]] + Split(s[i + 1..], c)
  }

  /** The names from `i` on, with a slash between two. */
  function Joined(names: seq<string>, i: nat): string
    requires i <= |names|
    decreases |names| - i
  {
    if i == |names| then "" else names[i] + (if i < |names| - 1 then "/" else "") + Joined(names, i + 1)
  }

  // ---------------------------------------------------------------------------
  // Writing

  function PathText(origin: string, names: seq<string>): string {
    (if |origin| > 0 then origin + ":" else if |names| > 0 then "/" else "") + Joined(names, 0)
  }

  method DecodePath(origin: string, names: seq<string>) returns (text: string)
    ensures text == PathText(origin, names)
  {
    text := "";
    if |origin| > 0 {
      text := text + origin;
      text := text + ":";
    } else if |names| > 0 {
      text := text + "/";
    }
    for i := 0 to |names|
      invariant text + Joined(names, i) == PathText(origin, names)
    {
      ghost var before := text;
      text := text + names[i];
      if i < |names| - 1 {
        text := text + "/";
      }
      assert before + (names[i] + (if i < |names| - 1 then "/" else "") + Joined(names, i + 1)) == text + Joined(names, i + 1);
    }
    assert text + "" == text;
  }

  // ---------------------------------------------------------------------------
  // Reading

  function AfterColon(s: string): (string, string) {
    var i := Index(s, ':');
    if i == |s| then ("", s) else (s[..i], s[i + 1..])
  }

  function Unslashed(path: string): string {
    if |path| > 0 && path[0] == '/' then path[1..] else path
  }

  /** The path in front of the first @, and the interval behind it. */
  function Timed(parseFloat: string -> Option<real>, path: string): (string, real) {
    var i := Index(path, '@');
    if i == |path| then (path, -1.0)
    else
      var t := path[i + 1..];
      (path[..i], if t == "change" then 0.0 else if parseFloat(t).Some? then parseFloat(t).value else -1.0)
  }

  /** The groups of ^([^=]+)='([^']+)'$ in an entry. */
  function FilterMatch(entry: string): Option<(string, string)> {
    var i := Index(entry, '=');
    if 0 < i && i + 4 <= |entry| && entry[i + 1] == '\'' && entry[|entry| - 1] == '\'' && Free(entry[i + 2..|entry| - 1], '\'')
    then Some((entry[..i], entry[i + 2..|entry| - 1])) else None
  }

  /** Entry `j` of an element; `None` is a panic, on a missing group or on storing into the nil map. */
  function Entry(e: Elem, j: nat, entry: string): Option<Elem> {
    if j == 0 then Some(e.(name := entry))
    else if FilterMatch(entry).None? || e.key.None? then None
    else Some(e.(key := Some(e.key.value[FilterMatch(entry).value.0 := FilterMatch(entry).value.1])))
  }

  /** The element after its first `n` entries. */
  function Filled(entries: seq<string>, n: nat): Option<Elem>
    requires n <= |entries|
  {
    if n == 0 then Some(Elem("", None))
    else if Filled(entries, n - 1).None? then None
    else Entry(Filled(entries, n - 1).value, n - 1, entries[n - 1])
  }

  function Element(part: string): Option<Elem> {
    Filled(Split(part, '['), |Split(part, '[')|)
  }

  /** The elements of the first `n` parts of a path. */
  function Elements(parts: seq<string>, n: nat): Option<seq<Elem>>
    requires n <= |parts|
  {
    if n == 0 then Some([])
    else if Elements(parts, n - 1).None? || Element(parts[n - 1]).None? then None
    else Some(Elements(parts, n - 1).value + [Element(parts[n - 1]).value])
  }

  /** `None` is a panic. */
  function ParsePath(parseFloat: string -> Option<real>, s: string): Option<Sensor> {
    var (origin, rest) := AfterColon(s);
    var (path, interval) := Timed(parseFloat, Unslashed(rest));
    var parts := Split(path, '/');
    var elems := Elements(parts, |parts|);
    if elems.None? then None else Some(Sensor(origin, elems.value, interval))
  }

  method FillElement(part: string) returns (r: Option<Elem>)
    ensures r == Element(part)
  {
    var elem := Elem("", None);
    var entries := Split(part, '[');
    for j := 0 to |entries|
      invariant Filled(entries, j) == Some(elem)
    {
      if j == 0 {
        elem := elem.(name := entries[j]);
      } else {
        var filter := FilterMatch(entries[j]);
        if filter.None? || elem.key.None? {
          PanicStays(entries, j + 1);
          return None;
        }
        elem := elem.(key := Some(elem.key.value[filter.value.0 := filter.value.1]));
      }
    }
    r := Some(elem);
  }

  lemma {:induction false} PanicStays(entries: seq<string>, n: nat)
    requires n <= |entries| && Filled(entries, n).None?
    ensures Filled(entries, |entries|).None?
    decreases |entries| - n
  {
    if n < |entries| {
      PanicStays(entries, n + 1);
    }
  }

  method FillElements(parts: seq<string>) returns (r: Option<seq<Elem>>)
    ensures r == Elements(parts, |parts|)
  {
    var elems := new Elem[|parts|](_ => Elem("", None));
    for k := 0 to |parts|
      invariant Elements(parts, k) == Some(elems[..k])
    {
      var elem := FillElement(parts[k]);
      if elem.None? {
        PanicEnds(parts, k + 1);
        return None;
      }
      elems[k] := elem.value;
      assert elems[..k + 1] == elems[..k] + [elem.value];
    }
    assert elems[..] == elems[..|parts|];
    r := Some(elems[..]);
  }

  lemma {:induction false} PanicEnds(parts: seq<string>, n: nat)
    requires n <= |parts| && Elements(parts, n).None?
    ensures Elements(parts, |parts|).None?
    decreases |parts| - n
  {
    if n < |parts| {
      PanicEnds(parts, n + 1);
    }
  }

  // ---------------------------------------------------------------------------
  // What elements can be

  predicate HasFilter(names: seq<string>) {
    exists i :: 0 <= i < |names| && !Free(names[i], '[')
  }

  /** Elements of these names, without a map for filters. */
  function Bare(names: seq<string>): seq<Elem> {
    seq(|names|, i requires 0 <= i < |names| => Elem(names[i], None))
  }

  /** No entry ever makes a map, so a second one panics, whatever it says. */
  lemma {:induction false} SecondPanics(entries: seq<string>, n: nat)
    requires 1 <= n <= |entries|
    ensures Filled(entries, n) == if n == 1 then Some(Elem(entries[0], None)) else None
  {
    if n > 1 {
      SecondPanics(entries, n - 1);
    } else {
      assert Filled(entries, 0) == Some(Elem("", None));
    }
  }

  lemma ElementIs(part: string)
    ensures Element(part) == if Free(part, '[') then Some(Elem(part, None)) else None
  {
    SecondPanics(Split(part, '['), |Split(part, '[')|);
    FirstEntry(part, '[');
  }

  lemma {:induction false} ElementsAre(parts: seq<string>, n: nat)
    requires n <= |parts|
    ensures Elements(parts, n) == if HasFilter(parts[..n]) then None else Some(Bare(parts[..n]))
  {
    if n > 0 {
      var a, b := parts[..n - 1], parts[..n];
      ElementsAre(parts, n - 1);
      ElementIs(parts[n - 1]);
      assert b == a + [parts[n - 1]];
      if !Free(parts[n - 1], '[') {
        assert !Free(b[n - 1], '[');
      }
      if HasFilter(a) {
        var i :| 0 <= i < |a| && !Free(a[i], '[');
        assert b[i] == a[i];
      } else {
        assert forall i | 0 <= i < n - 1 :: b[i] == a[i];
        assert Free(b[n - 1], '[') ==> Bare(b) == Bare(a) + [Elem(b[n - 1], None)];
      }
    }
  }

  /** What is read, but for a panic: the names between slashes, each an element without filters. */
  lemma Parses(parseFloat: string -> Option<real>, s: string)
    ensures var (origin, rest) := AfterColon(s);
            var (path, interval) := Timed(parseFloat, Unslashed(rest));
            var names := Split(path, '/');
            ParsePath(parseFloat, s) == if HasFilter(names) then None else Some(Sensor(origin, Bare(names), interval))
  {
    var names := Split(Timed(parseFloat, Unslashed(AfterColon(s).1)).0, '/');
    ElementsAre(names, |names|);
    assert names[..|names|] == names;
  }

  lemma BareNames(a: seq<string>, b: seq<string>)
    requires Bare(a) == Bare(b)
    ensures a == b
  {
    assert |Bare(a)| == |Bare(b)|;
    forall i | 0 <= i < |a| ensures a[i] == b[i] {
      assert Bare(a)[i].name == Bare(b)[i].name;
    }
  }

  lemma FirstEntry(s: string, c: char)
    ensures |Split(s, c)| == 1 <==> Free(s, c)
    ensures Free(s, c) ==> Split(s, c) == [s]
  {
  }

  method CutOrigin(s: string) returns (origin: string, path: string)
    ensures (origin, path) == AfterColon(s)
  {
    origin, path := "", s;
    var i := Index(s, ':');
    if i < |s| {
      origin, path := s[..i], s[i + 1..];
    }
  }

  method CutInterval(parseFloat: string -> Option<real>, path: string) returns (r: string, interval: real)
    ensures (r, interval) == Timed(parseFloat, path)
  {
    r, interval := path, -1.0;
    var i := Index(path, '@');
    if i < |path| {
      r := path[..i];
      if path[i + 1..] == "change" {
        interval := 0.0;
      } else {
        var f := parseFloat(path[i + 1..]);
        interval := if f.Some? then f.value else -1.0;
      }
    }
  }

  method ParseSensorPath(parseFloat: string -> Option<real>, s: string) returns (r: Option<Sensor>)
    ensures r == ParsePath(parseFloat, s)
  {
    var origin, path := CutOrigin(s);
    if |path| > 0 && path[0] == '/' {
      path := path[1..];
    }
    var interval;
    path, interval := CutInterval(parseFloat, path);
    var elems := FillElements(Split(path, '/'));
    r := if elems.None? then None else Some(Sensor(origin, elems.value, interval));
  }

  // ---------------------------------------------------------------------------
  // Split and join

  predicate AllFree(names: seq<string>, c: char) {
    forall i | 0 <= i < |names| :: Free(names[i], c)
  }

  lemma {:induction false} SplitFree(s: string, c: char, d: char)
    ensures AllFree(Split(s, c), c) && (Free(s, d) ==> AllFree(Split(s, c), d))
    decreases |s|
  {
    var i := Index(s, c);
    if i < |s| {
      SplitFree(s[i + 1..], c, d);
      var r := Split(s, c);
      forall k | 0 <= k < |r| ensures Free(r[k], c) && (Free(s, d) ==> Free(r[k], d)) {
        if k > 0 {
          assert r[k] == Split(s[i + 1..], c)[k - 1];
        }
      }
    }
  }

  lemma IndexAt(a: string, c: char, b: string)
    requires Free(a, c)
    ensures Index(a + [c] + b, c) == |a|
  {
    var s := a + [c] + b;
    assert s[|a|] == c;
    forall j | 0 <= j < |a| ensures s[j] != c {
      assert s[j] == a[j] && a[j] in a;
    }
  }

  lemma IndexNone(a: string, c: char)
    requires Free(a, c)
    ensures Index(a, c) == |a|
  {
  }

  /** Names without slashes are what their text is split into. */
  lemma {:induction false} SplitJoined(names: seq<string>, i: nat)
    requires i < |names| && AllFree(names, '/')
    ensures Split(Joined(names, i), '/') == names[i..]
    decreases |names| - i
  {
    JoinedStep(names, i);
    TailStep(names, i);
    if i == |names| - 1 {
      FirstEntry(names[i], '/');
    } else {
      SplitJoined(names, i + 1);
      SplitCons(names[i], '/', Joined(names, i + 1));
    }
  }

  lemma JoinedStep(names: seq<string>, i: nat)
    requires i < |names|
    ensures Joined(names, i) == if i == |names| - 1 then names[i] else names[i] + ['/'] + Joined(names, i + 1)
  {
    if i == |names| - 1 {
      assert Joined(names, i + 1) == "" && names[i] + "" + "" == names[i];
    }
  }

  lemma TailStep(names: seq<string>, i: nat)
    requires i < |names|
    ensures names[i..] == [names[i]] + names[i + 1..]
    ensures i == |names| - 1 ==> names[i..] == [names[i]]
  {
  }

  lemma SplitCons(a: string, c: char, rest: string)
    requires Free(a, c)
    ensures Split(a + [c] + rest, c) == [a] + Split(rest, c)
  {
    var s := a + [c] + rest;
    IndexAt(a, c, rest);
    assert s[..|a|] == a && s[|a| + 1..] == rest;
  }

  lemma InParts(a: string, b: string, d: string, c: char)
    ensures c in a + b + d <==> c in a || c in b || c in d
  {
  }

  lemma FreeParts(x: string, rest: seq<string>, c: char)
    ensures AllFree([x] + rest, c) <==> Free(x, c) && AllFree(rest, c)
  {
    var all := [x] + rest;
    assert forall k | 0 <= k < |rest| :: rest[k] == all[k + 1];
    assert all[0] == x;
  }

  lemma {:induction false} JoinedFree(names: seq<string>, i: nat, c: char)
    requires i <= |names| && c != '/'
    ensures Free(Joined(names, i), c) <==> AllFree(names[i..], c)
    decreases |names| - i
  {
    if i < |names| {
      JoinedFree(names, i + 1, c);
      InParts(names[i], if i < |names| - 1 then "/" else "", Joined(names, i + 1), c);
      assert names[i..] == [names[i]] + names[i + 1..];
      FreeParts(names[i], names[i + 1..], c);
    }
  }

  // ---------------------------------------------------------------------------
  // Reading what was written

  /** Whatever is read has at least one name, no delimiter in any name, no filters and no colon in the origin. */
  lemma ParsedShape(parseFloat: string -> Option<real>, s: string) returns (names: seq<string>)
    requires ParsePath(parseFloat, s).Some?
    ensures var r := ParsePath(parseFloat, s).value;
            && r.elems == Bare(names) && names != [] && AllFree(names, '/') && AllFree(names, '@') && AllFree(names, '[')
            && Free(r.origin, ':')
  {
    Parses(parseFloat, s);
    var (origin, rest) := AfterColon(s);
    var (path, interval) := Timed(parseFloat, Unslashed(rest));
    SplitFree(path, '/', '@');
    names := Split(path, '/');
    assert forall i | 0 <= i < |names| :: Free(names[i], '[');
  }

  /** What the text of a path is read as, for names without delimiters. */
  lemma ParseJoined(parseFloat: string -> Option<real>, names: seq<string>, rest: string)
    requires names != [] && AllFree(names, '/') && AllFree(names, '@') && AllFree(names, '[') && Unslashed(rest) == Joined(names, 0)
    ensures var (path, interval) := Timed(parseFloat, Unslashed(rest)); path == Joined(names, 0) && interval == -1.0
    ensures Split(Joined(names, 0), '/') == names && !HasFilter(names)
  {
    JoinedFree(names, 0, '@');
    assert names[0..] == names;
    IndexNone(Joined(names, 0), '@');
    SplitJoined(names, 0);
  }

  /** The condition under which a path's text is read back as the path. */
  predicate ReadsBack(origin: string, names: seq<string>) {
    && names != [] && AllFree(names, '/') && AllFree(names, '@') && AllFree(names, '[')
    && if origin == "" then AllFree(names, ':') else Free(origin, ':') && (|names| == 1 || names[0] != "")
  }

  lemma TextParts(origin: string, names: seq<string>)
    requires Free(origin, ':') && names != []
    ensures origin != "" ==> AfterColon(PathText(origin, names)) == (origin, Joined(names, 0))
    ensures origin == "" && AllFree(names, ':') ==> AfterColon(PathText(origin, names)) == ("", "/" + Joined(names, 0))
    ensures origin == "" && !AllFree(names, ':') ==> AfterColon(PathText(origin, names)).0 != ""
  {
    var j := Joined(names, 0);
    var s := PathText(origin, names);
    if origin != "" {
      assert s == origin + [':'] + j;
      IndexAt(origin, ':', j);
      assert s[..|origin|] == origin && s[|origin| + 1..] == j;
    } else {
      assert s == "/" + j;
      JoinedFree(names, 0, ':');
      assert names[0..] == names;
      if AllFree(names, ':') {
        IndexNone(s, ':');
      } else {
        var k :| 0 <= k < |j| && j[k] == ':';
        assert s[k + 1] == ':' && s[0] == '/';
        assert Index(s, ':') > 0;
      }
    }
  }

  lemma JoinedFirst(names: seq<string>)
    requires names != []
    ensures names[0] == "" && |names| > 1 ==> Joined(names, 0) == "/" + Joined(names, 1)
    ensures (names[0] != "" || |names| == 1) && AllFree(names, '/') ==> Unslashed(Joined(names, 0)) == Joined(names, 0)
  {
    var j := Joined(names, 0);
    if names[0] == "" && |names| > 1 {
      assert j == "" + "/" + Joined(names, 1);
    } else if names[0] != "" {
      assert j[0] == names[0][0] && names[0][0] in names[0];
    } else {
      assert j == "";
    }
  }

  /** The text of a path is read back as that path, with no interval, if and only if its names and origin are free of what delimits them. */
  lemma PathRoundTrip(parseFloat: string -> Option<real>, origin: string, names: seq<string>)
    ensures ParsePath(parseFloat, PathText(origin, names)) == Some(Sensor(origin, Bare(names), -1.0)) <==> ReadsBack(origin, names)
  {
    var s := PathText(origin, names);
    if ParsePath(parseFloat, s) == Some(Sensor(origin, Bare(names), -1.0)) {
      var read := ParsedShape(parseFloat, s);
      BareNames(read, names);
      ReadImpliesFree(parseFloat, origin, names);
    }
    if ReadsBack(origin, names) {
      FreeImpliesRead(parseFloat, origin, names);
    }
  }

  lemma ReadImpliesFree(parseFloat: string -> Option<real>, origin: string, names: seq<string>)
    requires ParsePath(parseFloat, PathText(origin, names)) == Some(Sensor(origin, Bare(names), -1.0))
    requires names != [] && AllFree(names, '/') && AllFree(names, '@') && AllFree(names, '[') && Free(origin, ':')
    ensures ReadsBack(origin, names)
  {
    TextParts(origin, names);
    if origin != "" && |names| > 1 && names[0] == "" {
      EmptyFirst(parseFloat, origin, names);
    }
  }

  /** Behind an origin, an empty first name is lost: its slash reads as the leading one. */
  lemma EmptyFirst(parseFloat: string -> Option<real>, origin: string, names: seq<string>)
    requires origin != "" && |names| > 1 && names[0] == ""
    requires AllFree(names, '/') && AllFree(names, '@') && AllFree(names, '[') && Free(origin, ':')
    ensures ParsePath(parseFloat, PathText(origin, names)) == Some(Sensor(origin, Bare(names[1..]), -1.0))
  {
    TextParts(origin, names);
    JoinedFirst(names);
    var rest, tail := Joined(names, 0), names[1..];
    ShiftJoined(names, 0);
    assert Unslashed(rest) == Joined(tail, 0);
    forall k | 0 <= k < |tail| ensures Free(tail[k], '/') && Free(tail[k], '@') && Free(tail[k], '[') {
      assert tail[k] == names[k + 1];
    }
    ParseJoined(parseFloat, tail, rest);
    Parses(parseFloat, PathText(origin, names));
  }

  lemma {:induction false} ShiftJoined(names: seq<string>, i: nat)
    requires i + 1 <= |names|
    ensures Joined(names[1..], i) == Joined(names, i + 1)
    decreases |names| - i
  {
    if i + 1 < |names| {
      ShiftJoined(names, i + 1);
    }
  }

  lemma FreeImpliesRead(parseFloat: string -> Option<real>, origin: string, names: seq<string>)
    requires ReadsBack(origin, names)
    ensures ParsePath(parseFloat, PathText(origin, names)) == Some(Sensor(origin, Bare(names), -1.0))
  {
    TextParts(origin, names);
    JoinedFirst(names);
    var rest := AfterColon(PathText(origin, names)).1;
    assert Unslashed(rest) == Joined(names, 0);
    ParseJoined(parseFloat, names, rest);
    Parses(parseFloat, PathText(origin, names));
  }

  // ---------------------------------------------------------------------------
  // Intervals

  /** The interval that the text behind an at-sign stands for. */
  function IntervalOf(parseFloat: string -> Option<real>, t: string): real {
    match parseFloat(t)
    case Some(x) => if t == "change" then 0.0 else x
    case None => if t == "change" then 0.0 else -1.0
  }

  lemma TimedAt(parseFloat: string -> Option<real>, path: string, t: string)
    requires Free(path, '@')
    ensures Timed(parseFloat, path + ['@'] + t) == (path, IntervalOf(parseFloat, t))
  {
    var s := path + ['@'] + t;
    IndexAt(path, '@', t);
    assert s[..|path|] == path && s[|path| + 1..] == t;
  }

  /** The path's own text, with an interval behind it, in front of the cut at the colon. */
  lemma TimedText(origin: string, names: seq<string>, t: string)
    requires ReadsBack(origin, names)
    ensures var s, rest := PathText(origin, names) + ['@'] + t, Joined(names, 0) + ['@'] + t;
            && (origin != "" ==> AfterColon(s) == (origin, rest))
            && (origin == "" && Free(t, ':') ==> AfterColon(s) == ("", "/" + rest))
            && (origin == "" && !Free(t, ':') ==> AfterColon(s).0 != "")
  {
    var j := Joined(names, 0);
    var s, rest := PathText(origin, names) + ['@'] + t, j + ['@'] + t;
    if origin != "" {
      assert s == origin + [':'] + rest;
      IndexAt(origin, ':', rest);
      assert s[..|origin|] == origin && s[|origin| + 1..] == rest;
    } else {
      assert s == "/" + rest;
      JoinedFree(names, 0, ':');
      assert names[0..] == names;
      assert ':' in s <==> ':' in t;
      if Free(t, ':') {
        IndexNone(s, ':');
      } else {
        assert s[0] == '/' && Index(s, ':') > 0 && Index(s, ':') < |s|;
      }
    }
  }

  /**
   A path's text with an interval behind it is read as the path with that interval, if and
   only if there is an origin or no colon in the interval's text.
   */
  lemma IntervalRead(parseFloat: string -> Option<real>, origin: string, names: seq<string>, t: string)
    requires ReadsBack(origin, names)
    ensures ParsePath(parseFloat, PathText(origin, names) + ['@'] + t) == Some(Sensor(origin, Bare(names), IntervalOf(parseFloat, t)))
            <==> origin != "" || Free(t, ':')
  {
    var s, j := PathText(origin, names) + ['@'] + t, Joined(names, 0);
    TimedText(origin, names, t);
    Parses(parseFloat, s);
    if origin != "" || Free(t, ':') {
      JoinedFree(names, 0, '@');
      assert names[0..] == names;
      UnslashedTimed(origin, names, t);
      TimedAt(parseFloat, j, t);
      SplitJoined(names, 0);
    }
  }

  lemma UnslashedTimed(origin: string, names: seq<string>, t: string)
    requires ReadsBack(origin, names)
    ensures var rest := Joined(names, 0) + ['@'] + t;
            Unslashed(if origin == "" then "/" + rest else rest) == rest
  {
    var j := Joined(names, 0);
    var rest := j + ['@'] + t;
    JoinedFirst(names);
    if origin != "" && j != "" {
      assert rest[0] == j[0];
    } else if origin == "" {
      assert ("/" + rest)[1..] == rest;
    }
  }

  lemma TextExamples()
    ensures PathText("openconfig", ["a", "b"]) == "openconfig:a/b" && PathText("", ["a"]) == "/a" && PathText("", []) == ""
  {
    assert Joined(["a", "b"], 2) == "" && Joined(["a", "b"], 1) == "b" && Joined(["a", "b"], 0) == "a/b";
    assert Joined(["a"], 1) == "" && Joined(["a"], 0) == "a";
  }

  /** A bracket anywhere in the path, before any interval, makes the parser panic. */
  lemma BracketsPanic(parseFloat: string -> Option<real>, s: string)
    ensures ParsePath(parseFloat, s).None? <==> '[' in Timed(parseFloat, Unslashed(AfterColon(s).1)).0
  {
    Parses(parseFloat, s);
    var path := Timed(parseFloat, Unslashed(AfterColon(s).1)).0;
    SplitFree(path, '/', '[');
    if '[' in path {
      SplitHas(path, '[');
    }
  }

  lemma {:induction false} SplitHas(s: string, d: char)
    requires d in s && d != '/'
    ensures exists k :: 0 <= k < |Split(s, '/')| && d in Split(s, '/')[k]
    decreases |s|
  {
    var i, r := Index(s, '/'), Split(s, '/');
    if i == |s| {
      assert d in r[0];
    } else {
      assert s == s[..i] + ['/'] + s[i + 1..];
      if d in s[..i] {
        assert d in r[0];
      } else {
        SplitHas(s[i + 1..], d);
        var k :| 0 <= k < |Split(s[i + 1..], '/')| && d in Split(s[i + 1..], '/')[k];
        assert r[k + 1] == Split(s[i + 1..], '/')[k];
      }
    }
  }

  // ---------------------------------------------------------------------------
  // The selector filter

  /** An update: the path it is for, and whatever else it carries. */
  datatype Update<V> = Update(origin: string, names: seq<string>, value: V)

  predicate Selected<V>(selectors: set<string>, prefix: string, u: Update<V>) {
    prefix + PathText(u.origin, u.names) in selectors
  }

  /** The selected ones of the first `n` updates, in order. */
  function Kept<V>(selectors: set<string>, prefix: string, us: seq<Update<V>>, n: nat): (r: seq<Update<V>>)
    requires n <= |us|
    ensures |r| <= n
  {
    if n == 0 then []
    else Kept(selectors, prefix, us, n - 1) + if Selected(selectors, prefix, us[n - 1]) then [us[n - 1]] else []
  }

  function SelectedAt<V>(selectors: set<string>, prefix: string, us: seq<Update<V>>): nat -> bool {
    (i: nat) => i < |us| && prefix + PathText(us[i].origin, us[i].names) in selectors
  }

  function UpdateAt<V>(us: seq<Update<V>>): nat -> Option<Update<V>> {
    (i: nat) => if i < |us| then Some(us[i]) else None
  }

  /** What is kept is the updates whose prefixed path is one of the selectors, in order. */
  lemma {:induction false} KeptPicks<V>(selectors: set<string>, prefix: string, us: seq<Update<V>>, n: nat)
    requires n <= |us|
    ensures Picks(UpdateAt(us), SelectedAt(selectors, prefix, us), n, Somes(Kept(selectors, prefix, us, n)))
  {
    var at, keep := UpdateAt(us), SelectedAt(selectors, prefix, us);
    if n == 0 {
      PicksNone(at, keep);
    } else {
      KeptPicks(selectors, prefix, us, n - 1);
      var before := Kept(selectors, prefix, us, n - 1);
      PicksNext(at, keep, n - 1, Somes(before));
      assert keep(n - 1) == Selected(selectors, prefix, us[n - 1]) && at(n - 1) == Some(us[n - 1]);
      assert Somes(before + [us[n - 1]]) == Somes(before) + [Some(us[n - 1])];
      assert before + [] == before;
    }
  }

  /** Updates are compacted in the slice they arrived in: its first `k` elements are the selected ones, in order. */
  method Prefilter<V>(selectors: set<string>, prefix: string, us: array<Update<V>>) returns (k: nat)
    modifies us
    ensures k <= us.Length
    ensures us[..k] == if selectors == {} then old(us[..]) else Kept(selectors, prefix, old(us[..]), us.Length)
  {
    if selectors == {} {
      return us.Length;
    }
    k := 0;
    ghost var was := us[..];
    for i := 0 to us.Length
      invariant k <= i && us[..k] == Kept(selectors, prefix, was, i)
      invariant us[i..] == was[i..]
    {
      var update := us[i];
      assert update == us[i..][0] == was[i];
      assert us[i..][1..] == us[i + 1..] && was[i..][1..] == was[i + 1..];
      var text := DecodePath(update.origin, update.names);
      if prefix + text in selectors {
        us[k] := update;
        k := k + 1;
        assert us[..k] == us[..k - 1] + [update];
      }
    }
  }
}
