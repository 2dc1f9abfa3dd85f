/** Location patterns (`codegen/src/projection/location.rs`), the URI form they are
    matched over (`sources/redfish/src/uri.rs`) and the matcher generated for one
    (`codegen/src/projection/emit.rs`). */
module Locations {
  import opened Bytes

  // --- Splitting and joining ---

  function Split(s: string, sep: char): (parts: seq<string>)
    ensures parts != []
  {
    if s == [] then [[]]
    else
      var rest := Split(s[1..], sep);
      if s[0] == sep then [[]] + rest else [[s[0]] + rest[0]] + rest[1..]
  }

  function Join(parts: seq<string>, sep: char): string
    requires parts != []
  {
    if |parts| == 1 then parts[0] else parts[0] + [sep] + Join(parts[1..], sep)
  }

  lemma {:induction false} SplitPure(s: string, sep: char)
    ensures forall p | p in Split(s, sep) :: sep !in p
  {
    if s != [] {
      SplitPure(s[1..], sep);
    }
  }

  lemma {:induction false} SplitOne(s: string, sep: char)
    requires sep !in s
    ensures Split(s, sep) == [s]
  {
    if s != [] {
      SplitOne(s[1..], sep);
      assert [s[0]] + s[1..] == s;
    }
  }

  lemma {:induction false} SplitFirst(p: string, rest: string, sep: char)
    requires sep !in p
    ensures Split(p + [sep] + rest, sep) == [p] + Split(rest, sep)
  {
    if p == [] {
      assert (p + [sep] + rest)[1..] == rest;
    } else {
      SplitFirst(p[1..], rest, sep);
      assert (p + [sep] + rest)[1..] == p[1..] + [sep] + rest;
      assert [p[0]] + p[1..] == p;
    }
  }

  lemma {:induction false} SplitJoin(parts: seq<string>, sep: char)
    requires parts != [] && forall p | p in parts :: sep !in p
    ensures Split(Join(parts, sep), sep) == parts
  {
    if |parts| == 1 {
      SplitOne(parts[0], sep);
    } else {
      SplitJoin(parts[1..], sep);
      SplitFirst(parts[0], Join(parts[1..], sep), sep);
    }
  }

  lemma {:induction false} JoinSplit(s: string, sep: char)
    ensures Join(Split(s, sep), sep) == s
  {
    if s != [] {
      JoinSplit(s[1..], sep);
      var rest := Split(s[1..], sep);
      if s[0] == sep {
        assert ([[]] + rest)[1..] == rest;
      } else {
        var parts := [[s[0]] + rest[0]] + rest[1..];
        assert parts[1..] == rest[1..];
        if |rest| > 1 {
          Assoc([s[0]], rest[0], [sep]);
          Assoc([s[0]], rest[0] + [sep], Join(rest[1..], sep));
        }
      }
    }
  }

  lemma {:induction false} JoinWithout(parts: seq<string>, sep: char, c: char)
    requires parts != [] && c != sep
    ensures c in Join(parts, sep) <==> exists p :: p in parts && c in p
  {
    if |parts| > 1 {
      JoinWithout(parts[1..], sep, c);
      assert parts == [parts[0]] + parts[1..];
    }
  }

  // --- The canonical form of a URI ---

  /** What precedes the first `sep`, or everything. */
  function Before(s: string, sep: char): string {
    if s == [] || s[0] == sep then [] else [s[0]] + Before(s[1..], sep)
  }

  function TrimEnd(s: string, c: char): string {
    if s != [] && s[|s| - 1] == c then TrimEnd(s[..|s| - 1], c) else s
  }

  function Canonical(uri: string): string {
    var path := Before(Before(uri, '#'), '?');
    var trimmed := TrimEnd(path, '/');
    if trimmed == [] && path != [] && path[0] == '/' then "/" else trimmed
  }

  lemma {:induction false} BeforeExact(s: string, sep: char, rest: string)
    requires sep !in s
    ensures Before(s, sep) == s && Before(s + [sep] + rest, sep) == s
  {
    if s != [] {
      BeforeExact(s[1..], sep, rest);
      assert (s + [sep] + rest)[1..] == s[1..] + [sep] + rest;
    } else {
      assert (s + [sep] + rest)[0] == sep;
    }
  }

  lemma {:induction false} BeforeLacks(s: string, sep: char, c: char)
    ensures sep !in Before(s, sep) && (c !in s ==> c !in Before(s, sep))
  {
    if s != [] && s[0] != sep {
      BeforeLacks(s[1..], sep, c);
    }
  }

  lemma {:induction false} TrimEndKeeps(s: string, c: char)
    ensures TrimEnd(s, c) <= s
    ensures TrimEnd(s, c) != [] ==> TrimEnd(s, c)[|TrimEnd(s, c)| - 1] != c
    ensures s != [] && s[|s| - 1] != c ==> TrimEnd(s, c) == s
  {
    if s != [] && s[|s| - 1] == c {
      TrimEndKeeps(s[..|s| - 1], c);
    }
  }

  function Slashes(n: nat): string { if n == 0 then [] else Slashes(n - 1) + ['/'] }

  lemma {:induction false} TrimEndSlashes(s: string, n: nat)
    ensures TrimEnd(s + Slashes(n), '/') == TrimEnd(s, '/')
  {
    if n == 0 {
      assert s + Slashes(0) == s;
    } else {
      TrimEndSlashes(s, n - 1);
      assert (s + Slashes(n))[..|s + Slashes(n)| - 1] == s + Slashes(n - 1);
    }
  }

  predicate Plain(s: string) { '?' !in s && '#' !in s }

  /** A query, a fragment, both, or neither. */
  predicate Suffix(s: string) { s == [] || s[0] == '?' || s[0] == '#' }

  lemma PathOf(path: string, suffix: string)
    requires Plain(path) && Suffix(suffix)
    ensures Before(Before(path + suffix, '#'), '?') == path
  {
    if suffix == [] {
      assert path + suffix == path;
      BeforeExact(path, '#', []);
      BeforeExact(path, '?', []);
    } else if suffix[0] == '#' {
      assert path + suffix == path + ['#'] + suffix[1..];
      BeforeExact(path, '#', suffix[1..]);
      BeforeExact(path, '?', []);
    } else {
      assert path + suffix == path + ['?'] + suffix[1..];
      BeforeOver(path + ['?'], suffix[1..], '#');
      BeforeExact(path, '?', Before(suffix[1..], '#'));
    }
  }

  lemma BeforeCons(c: char, rest: string, sep: char)
    requires c != sep
    ensures Before([c] + rest, sep) == [c] + Before(rest, sep)
  {
    assert ([c] + rest)[1..] == rest;
  }

  lemma {:induction false} BeforeOver(s: string, rest: string, sep: char)
    requires sep !in s
    ensures Before(s + rest, sep) == s + Before(rest, sep)
  {
    hide Before;
    if s == [] {
      assert s + rest == rest && s + Before(rest, sep) == Before(rest, sep);
    } else {
      BeforeOver(s[1..], rest, sep);
      BeforeCons(s[0], s[1..] + rest, sep);
      assert s + rest == [s[0]] + (s[1..] + rest);
      assert s + Before(rest, sep) == [s[0]] + (s[1..] + Before(rest, sep));
    }
  }

  /** Trailing separators, query and fragment never change which resource a path
      denotes, except that separators alone denote the root. */
  lemma CanonicalIgnores(path: string, n: nat, suffix: string)
    requires Plain(path) && Suffix(suffix)
    ensures Canonical(path + Slashes(n) + suffix) == Canonical(path) <==> path != [] || n == 0
  {
    SlashesPlain(n);
    PathOf(path + Slashes(n), suffix);
    PathOf(path, []);
    assert path + [] == path;
    TrimEndSlashes(path, n);
    TrimEndKeeps(path, '/');
    hide Before, TrimEnd, Suffix;
    assert n > 0 ==> Slashes(n)[|Slashes(n)| - 1] == '/';
    if path == [] && n > 0 {
      assert Slashes(n)[0] in Slashes(n) && path + Slashes(n) == Slashes(n);
    }
  }

  lemma {:induction false} SlashesPlain(n: nat)
    ensures |Slashes(n)| == n && forall c | c in Slashes(n) :: c == '/'
  {
    if n > 0 {
      SlashesPlain(n - 1);
    }
  }

  /** A canonical form has no query, fragment or trailing separator but the root's
      own, and only such a string is one. */
  lemma CanonicalShape(uri: string)
    ensures var c := Canonical(uri); Plain(c) && (c == "/" || c == [] || c[|c| - 1] != '/')
    ensures Canonical(uri) == uri <==> Plain(uri) && (uri == "/" || uri == [] || uri[|uri| - 1] != '/')
  {
    var once := Before(uri, '#');
    BeforeLacks(uri, '#', '?');
    BeforeLacks(once, '?', '#');
    TrimEndKeeps(Before(once, '?'), '/');
    if Plain(uri) {
      PathOf(uri, []);
      assert uri + [] == uri;
      TrimEndKeeps(uri, '/');
    }
  }

  /** The canonical form, read off the text: the path ends at the first `?` or `#`,
      and of it goes what is before the slashes at its end, or one slash where there
      is nothing else. */
  lemma CanonicalExactly(uri: string) returns (end: nat, cut: nat)
    ensures cut <= end <= |uri|
    ensures end < |uri| ==> uri[end] == '?' || uri[end] == '#'
    ensures forall i | 0 <= i < end :: uri[i] != '?' && uri[i] != '#'
    ensures forall i | cut <= i < end :: uri[i] == '/'
    ensures cut > 0 ==> uri[cut - 1] != '/'
    ensures Canonical(uri) == if cut == 0 && end > 0 then "/" else uri[..cut]
  {
    hide Before, TrimEnd;
    var path := Before(Before(uri, '#'), '?');
    PathIs(uri);
    TrimEndIs(path, '/');
    end, cut := |path|, |TrimEnd(path, '/')|;
    assert forall i | 0 <= i < end :: path[i] == uri[i];
    assert path == uri[..end] && TrimEnd(path, '/') == uri[..cut];
  }

  lemma PathIs(uri: string)
    ensures var path := Before(Before(uri, '#'), '?');
            && path <= uri && Plain(path)
            && (|path| < |uri| ==> uri[|path|] == '?' || uri[|path|] == '#')
  {
    hide Before;
    BeforeIs(uri, '#');
    BeforeIs(Before(uri, '#'), '?');
  }

  lemma {:induction false} BeforeIs(s: string, sep: char)
    ensures Before(s, sep) <= s && sep !in Before(s, sep)
    ensures |Before(s, sep)| < |s| ==> s[|Before(s, sep)|] == sep
  {
    if s != [] && s[0] != sep {
      BeforeIs(s[1..], sep);
    }
  }

  lemma {:induction false} TrimEndIs(s: string, c: char)
    ensures TrimEnd(s, c) <= s
    ensures TrimEnd(s, c) != [] ==> TrimEnd(s, c)[|TrimEnd(s, c)| - 1] != c
    ensures forall i | |TrimEnd(s, c)| <= i < |s| :: s[i] == c
  {
    if s != [] && s[|s| - 1] == c {
      TrimEndIs(s[..|s| - 1], c);
    }
  }

  lemma CanonicalIdempotent(uri: string)
    ensures Canonical(Canonical(uri)) == Canonical(uri)
  {
    CanonicalShape(uri);
    CanonicalShape(Canonical(uri));
  }

  // --- Parsing a template ---

  datatype Segment = Literal(text: string) | Wildcard | Capture

  datatype LocationPattern = LocationPattern(template: string, capture: string, segments: seq<Segment>)

  datatype Fault =
    | BadCapture | NotAbsolute | QueryOrFragment | TrailingSeparator
    | EmptySegment | DotSegment | NotPlaceholder | EmptyName | NestedBraces
    | NoCapture | RepeatedCapture(count: nat)

  datatype Parsed<T> = Ok(value: T) | Err(fault: Fault)

  predicate Braced(s: string) { '{' in s || '}' in s }

  /** A name a placeholder can carry. */
  predicate Name(s: string) { s != [] && !Braced(s) && '/' !in s && Plain(s) }

  function ParseSegment(s: string, capture: string): Parsed<Segment> {
    if s == [] then Err(EmptySegment)
    else if s == "." || s == ".." then Err(DotSegment)
    else if !Braced(s) then Ok(Literal(s))
    else if s[0] != '{' || |s| < 2 || s[|s| - 1] != '}' then Err(NotPlaceholder)
    else
      var name := s[1..|s| - 1];
      if name == [] then Err(EmptyName)
      else if Braced(name) then Err(NestedBraces)
      else Ok(if name == capture then Capture else Wildcard)
  }

  function ParseSegments(parts: seq<string>, capture: string): Parsed<seq<Segment>> {
    if parts == [] then Ok([])
    else match ParseSegment(parts[0], capture)
      case Err(f) => Err(f)
      case Ok(segment) =>
        match ParseSegments(parts[1..], capture)
        case Err(f) => Err(f)
        case Ok(rest) => Ok([segment] + rest)
  }

  function Captures(segments: seq<Segment>): nat {
    if segments == [] then 0
    else (if segments[|segments| - 1].Capture? then 1 else 0) + Captures(segments[..|segments| - 1])
  }

  function ParseResult(template: string, capture: string): Parsed<LocationPattern> {
    if !Name(capture) then Err(BadCapture)
    else if template == [] || template[0] != '/' then Err(NotAbsolute)
    else if !Plain(template) then Err(QueryOrFragment)
    else if |template| > 1 && template[|template| - 1] == '/' then Err(TrailingSeparator)
    else match ParseSegments(Split(template[1..], '/'), capture)
      case Err(f) => Err(f)
      case Ok(segments) =>
        if Captures(segments) == 1 then Ok(LocationPattern(template, capture, segments))
        else if Captures(segments) == 0 then Err(NoCapture)
        else Err(RepeatedCapture(Captures(segments)))
  }

  method Parse(template: string, capture: string) returns (r: Parsed<LocationPattern>)
    ensures r == ParseResult(template, capture)
  {
    if !Name(capture) {
      return Err(BadCapture);
    }
    if template == [] || template[0] != '/' {
      return Err(NotAbsolute);
    }
    if '?' in template || '#' in template {
      return Err(QueryOrFragment);
    }
    if |template| > 1 && template[|template| - 1] == '/' {
      return Err(TrailingSeparator);
    }
    var captures := 0;
    var segments: seq<Segment> := [];
    var parts := Split(template[1..], '/');
    assert parts[0..] == parts;
    AfterNothing(ParseSegments(parts, capture));
    hide Split, ParseResult, ParseSegment, Captures;
    for i := 0 to |parts|
      invariant captures == Captures(segments)
      invariant ParseSegments(parts, capture) == After(segments, ParseSegments(parts[i..], capture))
    {
      assert parts[i..][0] == parts[i] && parts[i..][1..] == parts[i + 1..];
      match ParseSegment(parts[i], capture) {
        case Err(fault) =>
          assert ParseResult(template, capture) == Err(fault) by { ParseFails(template, capture, fault); }
          return Err(fault);
        case Ok(segment) =>
          AfterTwice(segments, segment, ParseSegments(parts[i + 1..], capture));
          OneMoreSegment(segments, segment);
          if segment.Capture? {
            captures := captures + 1;
          }
          segments := segments + [segment];
      }
    }
    assert segments + [] == segments;
    ParseEnds(template, capture, segments);
    if captures == 1 {
      return Ok(LocationPattern(template, capture, segments));
    } else if captures == 0 {
      return Err(NoCapture);
    } else {
      return Err(RepeatedCapture(captures));
    }
  }

  predicate Shaped(template: string, capture: string) {
    && Name(capture) && template != [] && template[0] == '/' && Plain(template)
    && (|template| > 1 ==> template[|template| - 1] != '/')
  }

  lemma ParseFails(template: string, capture: string, fault: Fault)
    requires Shaped(template, capture) && ParseSegments(Split(template[1..], '/'), capture) == Err(fault)
    ensures ParseResult(template, capture) == Err(fault)
  {
  }

  lemma ParseEnds(template: string, capture: string, segments: seq<Segment>)
    requires Shaped(template, capture) && ParseSegments(Split(template[1..], '/'), capture) == Ok(segments)
    ensures ParseResult(template, capture) ==
            if Captures(segments) == 1 then Ok(LocationPattern(template, capture, segments))
            else if Captures(segments) == 0 then Err(NoCapture)
            else Err(RepeatedCapture(Captures(segments)))
  {
  }

  function After(front: seq<Segment>, r: Parsed<seq<Segment>>): Parsed<seq<Segment>> {
    match r
    case Ok(rest) => Ok(front + rest)
    case Err(f) => Err(f)
  }

  lemma AfterNothing(r: Parsed<seq<Segment>>)
    ensures After([], r) == r
  {
    if r.Ok? {
      assert [] + r.value == r.value;
    }
  }

  lemma AfterTwice(front: seq<Segment>, next: Segment, r: Parsed<seq<Segment>>)
    ensures After(front, After([next], r)) == After(front + [next], r)
  {
    if r.Ok? {
      Assoc(front, [next], r.value);
    }
  }

  lemma OneMoreSegment(segments: seq<Segment>, next: Segment)
    ensures Captures(segments + [next]) == Captures(segments) + if next.Capture? then 1 else 0
  {
    assert (segments + [next])[..|segments|] == segments;
  }

  // --- The grammar, declaratively ---

  /** Text with no delimiter of a template or a URI. */
  predicate Free(s: string) { s != [] && forall c | c in s :: c !in ['{', '}', '/', '?', '#'] }

  lemma FreeExactly(s: string)
    ensures Name(s) <==> Free(s)
  {
    if Name(s) {
      forall c | c in s ensures c !in ['{', '}', '/', '?', '#'] { }
    }
  }

  datatype Piece = Fixed(text: string) | Hole(name: string) {
    predicate Ok() {
      match this
      case Fixed(text) => Free(text) && text != "." && text != ".."
      case Hole(name) => Free(name)
    }

    function Text(): string {
      match this
      case Fixed(text) => text
      case Hole(name) => ['{'] + name + ['}']
    }

    function Lower(capture: string): Segment {
      match this
      case Fixed(text) => Literal(text)
      case Hole(name) => if name == capture then Capture else Wildcard
    }
  }

  function Texts(ps: seq<Piece>): seq<string> { seq(|ps|, i requires 0 <= i < |ps| => ps[i].Text()) }

  function Lowered(ps: seq<Piece>, capture: string): seq<Segment> {
    seq(|ps|, i requires 0 <= i < |ps| => ps[i].Lower(capture))
  }

  /** The template is these pieces, and its one hole of the captured name is the
      `at`th. */
  predicate Grammar(template: string, capture: string, ps: seq<Piece>, at: nat) {
    && Free(capture) && at < |ps|
    && (forall i | 0 <= i < |ps| :: ps[i].Ok())
    && (forall i | 0 <= i < |ps| :: ps[i] == Hole(capture) <==> i == at)
    && template == ['/'] + Join(Texts(ps), '/')
  }

  lemma PieceParses(p: Piece, capture: string)
    requires p.Ok()
    ensures ParseSegment(p.Text(), capture) == Ok(p.Lower(capture))
    ensures p.Text() != [] && '/' !in p.Text() && Plain(p.Text())
  {
    if p.Hole? {
      var s := p.Text();
      assert s[0] == '{' && s[1..|s| - 1] == p.name;
    }
  }

  /** The piece a segment that parses was written as. */
  function PieceOf(s: string): Piece {
    if Braced(s) && |s| >= 2 then Hole(s[1..|s| - 1]) else Fixed(s)
  }

  lemma SegmentIsPiece(s: string, capture: string)
    requires ParseSegment(s, capture).Ok? && '/' !in s && Plain(s)
    ensures PieceOf(s).Ok() && PieceOf(s).Text() == s && PieceOf(s).Lower(capture) == ParseSegment(s, capture).value
  {
    if Braced(s) {
      assert s == [s[0]] + s[1..|s| - 1] + [s[|s| - 1]];
    }
  }

  lemma PiecesCons(p: Piece, rest: seq<Piece>, capture: string)
    ensures Texts([p] + rest) == [p.Text()] + Texts(rest)
    ensures Lowered([p] + rest, capture) == [p.Lower(capture)] + Lowered(rest, capture)
  {
  }

  lemma {:induction false} SegmentsParse(ps: seq<Piece>, capture: string)
    requires forall i | 0 <= i < |ps| :: ps[i].Ok()
    ensures ParseSegments(Texts(ps), capture) == Ok(Lowered(ps, capture))
  {
    if ps == [] {
      assert Texts(ps) == [] && Lowered(ps, capture) == [];
    } else {
      PieceParses(ps[0], capture);
      SegmentsParse(ps[1..], capture);
      PiecesCons(ps[0], ps[1..], capture);
      assert ps == [ps[0]] + ps[1..];
      assert ([ps[0].Text()] + Texts(ps[1..]))[1..] == Texts(ps[1..]);
      hide Texts, Lowered, ParseSegment;
    }
  }

  lemma {:induction false} CapturesNone(segments: seq<Segment>)
    ensures Captures(segments) == 0 <==> forall i | 0 <= i < |segments| :: !segments[i].Capture?
  {
    if segments != [] {
      CapturesNone(segments[..|segments| - 1]);
    }
  }

  lemma {:induction false} CapturesOne(segments: seq<Segment>, at: nat)
    requires at < |segments| && segments[at].Capture?
    ensures Captures(segments) == 1 <==> forall i | 0 <= i < |segments| && i != at :: !segments[i].Capture?
  {
    var init := segments[..|segments| - 1];
    CapturesNone(init);
    if at < |init| {
      CapturesOne(init, at);
      CapturesPositive(init, at);
    }
  }

  lemma {:induction false} CapturesPositive(segments: seq<Segment>, at: nat)
    requires at < |segments| && segments[at].Capture?
    ensures Captures(segments) >= 1
  {
    CapturesNone(segments);
  }

  lemma GrammarShape(template: string, capture: string, ps: seq<Piece>, at: nat)
    requires Grammar(template, capture, ps, at)
    ensures Shaped(template, capture) && Split(template[1..], '/') == Texts(ps)
  {
    var texts := Texts(ps);
    forall t | t in texts ensures t != [] && '/' !in t && Plain(t) {
      var i :| 0 <= i < |texts| && texts[i] == t;
      PieceParses(ps[i], capture);
    }
    SplitJoin(texts, '/');
    JoinWithout(texts, '/', '?');
    JoinWithout(texts, '/', '#');
    JoinEnds(texts, '/');
    assert template[1..] == Join(texts, '/');
  }

  lemma {:induction false} JoinEnds(parts: seq<string>, sep: char)
    requires parts != [] && forall p | p in parts :: p != [] && sep !in p
    ensures var j := Join(parts, sep); j != [] && j[|j| - 1] != sep
  {
    if |parts| > 1 {
      assert forall p | p in parts[1..] :: p in parts;
      JoinEnds(parts[1..], sep);
    } else {
      assert parts[0] in parts;
    }
  }

  /** Whatever the grammar describes parses, to its own pieces. */
  lemma GrammarParses(template: string, capture: string, ps: seq<Piece>, at: nat)
    requires Grammar(template, capture, ps, at)
    ensures ParseResult(template, capture) == Ok(LocationPattern(template, capture, Lowered(ps, capture)))
  {
    GrammarShape(template, capture, ps, at);
    SegmentsParse(ps, capture);
    var segments := Lowered(ps, capture);
    assert segments[at].Capture?;
    CapturesOne(segments, at);
    ParseEnds(template, capture, segments);
  }

  lemma {:induction false} SegmentsArePieces(parts: seq<string>, capture: string) returns (ps: seq<Piece>)
    requires ParseSegments(parts, capture).Ok? && forall p | p in parts :: '/' !in p && Plain(p)
    ensures (forall i | 0 <= i < |ps| :: ps[i].Ok()) && Texts(ps) == parts
    ensures Lowered(ps, capture) == ParseSegments(parts, capture).value
  {
    ps := [];
    if parts != [] {
      SegmentIsPiece(parts[0], capture);
      var rest := SegmentsArePieces(parts[1..], capture);
      ps := [PieceOf(parts[0])] + rest;
      PiecesCons(PieceOf(parts[0]), rest, capture);
      hide Texts, Lowered, ParseSegment, PieceOf;
    }
  }

  lemma {:induction false} SplitPlain(s: string)
    requires Plain(s)
    ensures forall p | p in Split(s, '/') :: '/' !in p && Plain(p)
  {
    SplitPure(s, '/');
    JoinSplit(s, '/');
    JoinWithout(Split(s, '/'), '/', '?');
    JoinWithout(Split(s, '/'), '/', '#');
  }

  /** Nothing else parses: `Parse` accepts exactly the grammar. */
  lemma ParsedIsGrammar(template: string, capture: string) returns (ps: seq<Piece>, at: nat)
    requires ParseResult(template, capture).Ok?
    ensures Grammar(template, capture, ps, at)
    ensures ParseResult(template, capture).value == LocationPattern(template, capture, Lowered(ps, capture))
  {
    hide Lowered, ParseSegments, Captures, Texts, Split, Join, Name;
    var parts := Split(template[1..], '/');
    SplitPlain(template[1..]);
    ps := SegmentsArePieces(parts, capture);
    var segments := Lowered(ps, capture);
    CapturesNone(segments);
    at :| 0 <= at < |segments| && segments[at].Capture?;
    CapturesOne(segments, at);
    LoweredCaptures(ps, capture);
    JoinSplit(template[1..], '/');
  }

  lemma LoweredCaptures(ps: seq<Piece>, capture: string)
    ensures |Lowered(ps, capture)| == |ps|
    ensures forall i | 0 <= i < |ps| :: Lowered(ps, capture)[i].Capture? <==> ps[i] == Hole(capture)
  {
  }

  /** Acceptance in one line. */
  lemma ParseExact(template: string, capture: string)
    ensures ParseResult(template, capture).Ok? <==> exists ps, at :: Grammar(template, capture, ps, at)
  {
    if ParseResult(template, capture).Ok? {
      var ps, at := ParsedIsGrammar(template, capture);
    }
    if exists ps, at :: Grammar(template, capture, ps, at) {
      var ps, at :| Grammar(template, capture, ps, at);
      GrammarParses(template, capture, ps, at);
    }
  }

  // --- What is wrong with a refused template ---

  /** A placeholder: braces around a text. */
  predicate Bracketed(s: string) { |s| >= 2 && s[0] == '{' && s[|s| - 1] == '}' }

  /** What is wrong with one segment, if anything. */
  predicate SegmentFault(s: string, f: Fault) {
    match f
    case EmptySegment => s == []
    case DotSegment => s == "." || s == ".."
    case NotPlaceholder => (exists c :: c in s && (c == '{' || c == '}')) && !Bracketed(s)
    case EmptyName => s == "{}"
    case NestedBraces => Bracketed(s) && exists k :: 1 <= k < |s| - 1 && (s[k] == '{' || s[k] == '}')
    case _ => false
  }

  lemma SegmentFaultExactly(s: string, capture: string, f: Fault)
    ensures ParseSegment(s, capture) == Err(f) <==> SegmentFault(s, f)
  {
    hide Before, TrimEnd, Canonical, Split, Join;
    assert Braced(s) <==> exists c :: c in s && (c == '{' || c == '}');
    if Bracketed(s) {
      InnerBraces(s);
      hide Braced;
    }
  }

  lemma InnerBraces(s: string)
    requires Bracketed(s)
    ensures Braced(s[1..|s| - 1]) <==> exists k :: 1 <= k < |s| - 1 && (s[k] == '{' || s[k] == '}')
    ensures s[1..|s| - 1] == [] <==> s == "{}"
    ensures Braced(s)
  {
    var name := s[1..|s| - 1];
    if k :| 1 <= k < |s| - 1 && (s[k] == '{' || s[k] == '}') {
      assert name[k - 1] == s[k] && s[k] in name;
    }
    if Braced(name) {
      var c :| c in name && (c == '{' || c == '}');
      var k :| 0 <= k < |name| && name[k] == c;
      assert s[k + 1] == c;
    }
  }

  lemma FaultlessCapture(s: string, capture: string)
    requires Free(capture)
    ensures ParseSegment(s, capture).Err? || (ParseSegment(s, capture) == Ok(Capture) <==> s == ['{'] + capture + ['}'])
  {
    FreeExactly(capture);
    if s == ['{'] + capture + ['}'] {
      assert s[1..|s| - 1] == capture;
    }
    if ParseSegment(s, capture) == Ok(Capture) {
      assert s == [s[0]] + s[1..|s| - 1] + [s[|s| - 1]];
    }
  }

  /** This segment is the first at fault, and this is its fault. */
  ghost predicate FirstFault(parts: seq<string>, i: nat, f: Fault) {
    i < |parts| && SegmentFault(parts[i], f) && Faultless(parts[..i])
  }

  ghost predicate Faultless(parts: seq<string>) { forall p, g | p in parts :: !SegmentFault(p, g) }

  lemma {:induction false} FirstFaultExactly(parts: seq<string>, capture: string, f: Fault)
    ensures ParseSegments(parts, capture) == Err(f) <==> exists i: nat :: FirstFault(parts, i, f)
    ensures ParseSegments(parts, capture).Ok? <==> Faultless(parts)
  {
    if parts != [] {
      var (head, rest) := (parts[0], parts[1..]);
      FirstFaultExactly(rest, capture, f);
      SegmentFaultExactly(head, capture, f);
      forall g ensures ParseSegment(head, capture) == Err(g) <==> SegmentFault(head, g) {
        SegmentFaultExactly(head, capture, g);
      }
      hide ParseSegment, SegmentFault;
      assert parts == [head] + rest;
      if i: nat :| FirstFault(rest, i, f) {
        assert parts[..i + 1] == [head] + rest[..i];
        assert ParseSegment(head, capture).Ok? ==> FirstFault(parts, i + 1, f);
      }
      if i: nat :| FirstFault(parts, i, f) {
        if i > 0 {
          assert parts[..i] == [head] + rest[..i - 1] && head in parts[..i];
          assert FirstFault(rest, i - 1, f);
        }
      }
      assert SegmentFault(head, f) ==> FirstFault(parts, 0, f);
    }
  }

  ghost function Holes(parts: seq<string>, capture: string): set<nat> {
    set i: nat | i < |parts| && parts[i] == ['{'] + capture + ['}']
  }

  lemma {:induction false} ParsedEach(parts: seq<string>, capture: string)
    requires ParseSegments(parts, capture).Ok?
    ensures var segments := ParseSegments(parts, capture).value;
            |segments| == |parts|
            && forall i | 0 <= i < |parts| :: ParseSegment(parts[i], capture) == Ok(segments[i])
  {
    hide ParseSegment;
    if parts != [] {
      ParsedEach(parts[1..], capture);
      var (segments, rest) := (ParseSegments(parts, capture).value, ParseSegments(parts[1..], capture).value);
      forall i | 0 <= i < |parts| ensures ParseSegment(parts[i], capture) == Ok(segments[i]) {
        assert i > 0 ==> parts[i] == parts[1..][i - 1] && segments[i] == rest[i - 1];
      }
    }
  }

  ghost function CaptureSet(segments: seq<Segment>): set<nat> {
    set i: nat | i < |segments| && segments[i].Capture?
  }

  lemma {:induction false} CapturesAre(segments: seq<Segment>)
    ensures Captures(segments) == |CaptureSet(segments)|
  {
    if segments != [] {
      var n := |segments| - 1;
      CapturesAre(segments[..n]);
      assert CaptureSet(segments) == CaptureSet(segments[..n]) + if segments[n].Capture? then {n} else {};
      assert n !in CaptureSet(segments[..n]);
    }
  }

  lemma CapturesCounted(parts: seq<string>, capture: string)
    requires Free(capture) && ParseSegments(parts, capture).Ok?
    ensures Captures(ParseSegments(parts, capture).value) == |Holes(parts, capture)|
  {
    var segments := ParseSegments(parts, capture).value;
    ParsedEach(parts, capture);
    CapturesAre(segments);
    forall i: nat | i < |parts| ensures segments[i].Capture? <==> parts[i] == ['{'] + capture + ['}'] {
      FaultlessCapture(parts[i], capture);
    }
    assert CaptureSet(segments) == Holes(parts, capture);
  }

  /** The template is a slash and these segments, slashes between them. */
  ghost predicate Written(template: string, parts: seq<string>) {
    parts != [] && (forall p | p in parts :: '/' !in p) && template == ['/'] + Join(parts, '/')
  }

  /** A sound name, and a template that is absolute, has no query or fragment and
      does not end in a further slash. */
  ghost predicate Outlined(template: string, capture: string) {
    && Free(capture) && template != [] && template[0] == '/' && !('?' in template || '#' in template)
    && !(|template| > 1 && template[|template| - 1] == '/')
  }

  /** What is wrong with a template, the first thing first. */
  ghost predicate Refusal(template: string, capture: string, f: Fault) {
    match f
    case BadCapture => !Free(capture)
    case NotAbsolute => Free(capture) && (template == [] || template[0] != '/')
    case QueryOrFragment => Free(capture) && template != [] && template[0] == '/' && ('?' in template || '#' in template)
    case TrailingSeparator =>
      && Free(capture) && |template| > 1 && template[0] == '/' && !('?' in template || '#' in template)
      && template[|template| - 1] == '/'
    case NoCapture =>
      Outlined(template, capture)
      && exists parts :: Written(template, parts) && Faultless(parts) && Holes(parts, capture) == {}
    case RepeatedCapture(n) =>
      Outlined(template, capture) && n > 1
      && exists parts :: Written(template, parts) && Faultless(parts) && |Holes(parts, capture)| == n
    case _ =>
      Outlined(template, capture)
      && exists parts, i :: Written(template, parts) && FirstFault(parts, i, f)
  }

  lemma WrittenExactly(template: string, parts: seq<string>)
    ensures Written(template, parts) <==> template != [] && template[0] == '/' && parts == Split(template[1..], '/')
  {
    if Written(template, parts) {
      assert template[1..] == Join(parts, '/');
      SplitJoin(parts, '/');
    }
    if template != [] && template[0] == '/' && parts == Split(template[1..], '/') {
      SplitPure(template[1..], '/');
      JoinSplit(template[1..], '/');
      assert template == ['/'] + template[1..];
    }
  }

  /** Every refusal is for the first thing wrong with the template. */
  lemma RefusedExactly(template: string, capture: string, f: Fault)
    ensures ParseResult(template, capture) == Err(f) <==> Refusal(template, capture, f)
  {
    FreeExactly(capture);
    hide Free, Name, Split, ParseSegments, ParseSegment, Captures, FirstFault, Faultless, SegmentFault, Holes, Written;
    if Outlined(template, capture) {
      var parts := Split(template[1..], '/');
      forall ps ensures Written(template, ps) <==> ps == parts {
        WrittenExactly(template, ps);
      }
      FirstFaultExactly(parts, capture, f);
      OnlySegmentFaults(parts, f);
      if ParseSegments(parts, capture).Ok? {
        CapturesCounted(parts, capture);
      }
    }
  }

  lemma OnlySegmentFaults(parts: seq<string>, f: Fault)
    ensures (exists i: nat :: FirstFault(parts, i, f)) ==>
              !f.BadCapture? && !f.NotAbsolute? && !f.QueryOrFragment? && !f.TrailingSeparator? && !f.NoCapture?
              && !f.RepeatedCapture?
  {
  }

  /** Normalization cannot change an accepted pattern. */
  lemma AcceptedIsCanonical(template: string, capture: string)
    requires ParseResult(template, capture).Ok?
    ensures Canonical(template) == template
  {
    CanonicalShape(template);
  }

  // --- The generated matcher ---

  /** Segment by segment: a literal is itself, a placeholder anything nonempty. */
  predicate Fits(pattern: seq<Segment>, segments: seq<string>) {
    && |segments| == |pattern|
    && forall i | 0 <= i < |pattern| ::
         if pattern[i].Literal? then segments[i] == pattern[i].text else segments[i] != []
  }

  predicate CapturesAt(pattern: seq<Segment>, at: nat) {
    at < |pattern| && forall i | 0 <= i < |pattern| :: pattern[i].Capture? <==> i == at
  }

  function Match(pattern: seq<Segment>, location: string, at: nat): Option<string>
    requires CapturesAt(pattern, at)
  {
    var path := Canonical(location);
    if path != [] && path[0] == '/' && Fits(pattern, Split(path[1..], '/'))
    then Some(Split(path[1..], '/')[at])
    else None
  }

  method MatchLocation(pattern: seq<Segment>, location: string, ghost at: nat) returns (captured: Option<string>)
    requires CapturesAt(pattern, at)
    ensures captured == Match(pattern, location, at)
  {
    var path := Canonical(location);
    if path == [] || path[0] != '/' {
      return None;
    }
    var segments := Split(path[1..], '/');
    hide Split, Canonical;
    captured := None;
    for i := 0 to |pattern|
      invariant i <= |segments|
      invariant forall j | 0 <= j < i ::
                  if pattern[j].Literal? then segments[j] == pattern[j].text else segments[j] != []
      invariant captured == if at < i then Some(segments[at]) else None
    {
      if i == |segments| {
        return None;
      }
      match pattern[i] {
        case Capture =>
          if segments[i] == [] {
            return None;
          }
          captured := Some(segments[i]);
        case Wildcard =>
          if segments[i] == [] {
            return None;
          }
        case Literal(text) =>
          if segments[i] != text {
            return None;
          }
      }
    }
    if |segments| > |pattern| {
      return None;
    }
  }

  /** Segments written into the template's holes, none empty, none with a
      separator. */
  predicate Filling(ps: seq<Piece>, fill: seq<string>) {
    && |fill| == |ps|
    && (forall i | 0 <= i < |fill| :: fill[i] != [] && '/' !in fill[i])
    && forall i | 0 <= i < |ps| && ps[i].Fixed? :: fill[i] == ps[i].text
  }

  /** The matcher yields `c` exactly when the canonical location is the template
      with its holes filled and `c` in the captured one. */
  lemma MatchExact(template: string, capture: string, ps: seq<Piece>, at: nat, location: string, c: string)
    requires Grammar(template, capture, ps, at)
    ensures CapturesAt(Lowered(ps, capture), at)
    ensures Match(Lowered(ps, capture), location, at) == Some(c) <==>
            exists fill :: Filling(ps, fill) && Canonical(location) == ['/'] + Join(fill, '/') && fill[at] == c
  {
    var pattern := Lowered(ps, capture);
    assert CapturesAt(pattern, at);
    var path := Canonical(location);
    if Match(pattern, location, at) == Some(c) {
      var fill := Split(path[1..], '/');
      SplitPure(path[1..], '/');
      JoinSplit(path[1..], '/');
      FitsFills(ps, capture, fill);
      assert path == ['/'] + path[1..];
      assert Filling(ps, fill) && fill[at] == c;
    }
    if exists fill :: Filling(ps, fill) && path == ['/'] + Join(fill, '/') && fill[at] == c {
      var fill :| Filling(ps, fill) && path == ['/'] + Join(fill, '/') && fill[at] == c;
      assert path[1..] == Join(fill, '/');
      SplitJoin(fill, '/');
      FillsFit(ps, capture, fill);
    }
  }

  lemma FitsFills(ps: seq<Piece>, capture: string, fill: seq<string>)
    requires (forall i | 0 <= i < |ps| :: ps[i].Ok()) && Fits(Lowered(ps, capture), fill)
             && forall p | p in fill :: '/' !in p
    ensures Filling(ps, fill)
  {
    forall i | 0 <= i < |fill| ensures fill[i] != [] && '/' !in fill[i] && (ps[i].Fixed? ==> fill[i] == ps[i].text) {
      assert fill[i] in fill && ps[i].Ok();
      assert Lowered(ps, capture)[i] == ps[i].Lower(capture);
    }
  }

  lemma FillsFit(ps: seq<Piece>, capture: string, fill: seq<string>)
    requires Filling(ps, fill)
    ensures Fits(Lowered(ps, capture), fill)
  {
  }

  /** And so for any trailing separators, query or fragment after it. */
  lemma FilledLocationMatches(template: string, capture: string, ps: seq<Piece>, at: nat, fill: seq<string>, n: nat,
      suffix: string)
    requires Grammar(template, capture, ps, at) && Filling(ps, fill) && Suffix(suffix)
    requires forall p | p in fill :: Plain(p)
    ensures CapturesAt(Lowered(ps, capture), at)
    ensures Match(Lowered(ps, capture), ['/'] + Join(fill, '/') + Slashes(n) + suffix, at) == Some(fill[at])
  {
    var path := ['/'] + Join(fill, '/');
    JoinWithout(fill, '/', '?');
    JoinWithout(fill, '/', '#');
    JoinEnds(fill, '/');
    CanonicalIgnores(path, n, suffix);
    CanonicalShape(path);
    MatchExact(template, capture, ps, at, path + Slashes(n) + suffix, fill[at]);
  }

  // --- Log services ---

  function LogServiceOwner(uri: string): Option<(string, string)> {
    var s := Split(Canonical(uri), '/');
    if |s| == 7 && s[0] == "" && s[1] == "redfish" && s[2] == "v1"
       && (s[3] == "Systems" || s[3] == "Managers" || s[3] == "Chassis")
       && s[4] != "" && s[5] == "LogServices" && s[6] != ""
    then Some((s[3], s[4])) else None
  }

  /** A log service's owner is read off exactly the locations built from it, so
      owners of one name in different collections are never confused. */
  lemma LogServiceOwnerExact(uri: string, kind: string, owner: string)
    ensures LogServiceOwner(uri) == Some((kind, owner)) <==>
            && (kind == "Systems" || kind == "Managers" || kind == "Chassis")
            && owner != [] && '/' !in owner
            && exists service: string ::
                 && service != [] && '/' !in service
                 && Canonical(uri) == Join(["", "redfish", "v1", kind, owner, "LogServices", service], '/')
  {
    hide Canonical;
    var path := Canonical(uri);
    var s := Split(path, '/');
    if LogServiceOwner(uri) == Some((kind, owner)) {
      SplitPure(path, '/');
      JoinSplit(path, '/');
      assert s == ["", "redfish", "v1", kind, owner, "LogServices", s[6]];
      assert s[4] in s && s[6] in s;
    }
    if (kind == "Systems" || kind == "Managers" || kind == "Chassis") && owner != [] && '/' !in owner {
      forall service: string | service != [] && '/' !in service
                               && path == Join(["", "redfish", "v1", kind, owner, "LogServices", service], '/')
        ensures LogServiceOwner(uri) == Some((kind, owner))
      {
        SplitJoin(["", "redfish", "v1", kind, owner, "LogServices", service], '/');
      }
    }
  }
}
