/**
 Path templates such as /files/{name:path}, read by the router (src/router.rs) and by the
 reverse URLconf (python/django_bolt/urls.py).

 Segments is the reading of a template on which both are compared. It is defined on every
 string, unterminated braces included.
 */
module PathTemplates {
  import opened Common
  import Registration

  datatype Segment = Lit(c: char) | Param(name: string, converter: Option<string>, closed: bool)

  predicate IsCatchAll(p: Segment) {
    p.Param? && p.converter == Some("path")
  }

  /** Index of the first c, or the length. */
  function Until(s: string, c: char): (n: nat)
    ensures n <= |s| && (n < |s| ==> s[n] == c)
    ensures forall i :: 0 <= i < n ==> s[i] != c
  {
    if s == "" || s[0] == c then 0 else 1 + Until(s[1..], c)
  }

  lemma UntilIsUnique(s: string, c: char, n: nat)
    requires n <= |s| && (n < |s| ==> s[n] == c)
    requires forall i :: 0 <= i < n ==> s[i] != c
    ensures Until(s, c) == n
  {
  }

  function ParamOf(body: string, closed: bool): Segment {
    var colon := Until(body, ':');
    if colon < |body| then Param(body[..colon], Some(body[colon + 1..]), closed) else Param(body, None, closed)
  }

  /** The rest of a template after the braces that open it. */
  function AfterBraces(s: string): string
    requires s != ""
  {
    var n := Until(s[1..], '}');
    if n < |s| - 1 then s[n + 2..] else ""
  }

  function FirstSegment(s: string): Segment
    requires s != ""
  {
    var n := Until(s[1..], '}');
    if s[0] == '{' then ParamOf(s[1..n + 1], n < |s| - 1) else Lit(s[0])
  }

  function Rest(s: string): (r: string)
    requires s != ""
    ensures |r| < |s|
  {
    if s[0] == '{' then AfterBraces(s) else s[1..]
  }

  function Segments(s: string): seq<Segment>
    decreases |s|
  {
    if s == "" then [] else [FirstSegment(s)] + Segments(Rest(s))
  }

  // --- the two conversions --------------------------------------------------------------

  function Mark(p: Segment): string {
    if IsCatchAll(p) then "*" else ""
  }

  /** One segment in the syntax of the radix-tree router. */
  function Routed(p: Segment): string {
    match p
    case Lit(c) => [c]
    case Param(name, _, _) => ['{'] + (Mark(p) + name) + ['}']
  }

  function RenderRouted(segments: seq<Segment>): string {
    if segments == [] then "" else Routed(segments[0]) + RenderRouted(segments[1..])
  }

  function Converted(path: string): string {
    RenderRouted(Segments(path))
  }

  /** The template from i on starts with a segment written as the piece, up to next. */
  ghost predicate Reads(path: string, i: nat, piece: string, next: nat)
    requires i <= next <= |path|
  {
    Converted(path[i..]) == piece + Converted(path[next..])
  }

  /** What is written so far is the conversion of what has been read. */
  ghost predicate Written(path: string, i: nat, result: string)
    requires i <= |path|
  {
    result + Converted(path[i..]) == Converted(path)
  }

  lemma BracesAreConverted(todo: string, body: string, closed: bool, rest: string)
    requires forall k :: 0 <= k < |body| ==> body[k] != '}'
    requires todo == ['{'] + body + (if closed then ['}'] + rest else "") && (!closed ==> rest == "")
    ensures Converted(todo) == Routed(ParamOf(body, closed)) + Converted(rest)
  {
    assert todo[1..] == body + (if closed then ['}'] + rest else "");
    UntilIsUnique(todo[1..], '}', |body|);
    assert todo[1..|body| + 1] == body;
    assert FirstSegment(todo) == ParamOf(body, closed) && Rest(todo) == rest;
  }

  lemma OneMoreWritten(path: string, i: nat, result: string, piece: string, next: nat)
    requires i <= next <= |path| && Written(path, i, result) && Reads(path, i, piece, next)
    ensures Written(path, next, result + piece)
  {
    ConcatAssociative(result, piece, Converted(path[next..]));
  }

  lemma AllIsWritten(path: string)
    ensures Written(path, 0, "")
    ensures forall result :: Written(path, |path|, result) ==> result == Converted(path)
  {
    assert path[0..] == path && path[|path|..] == "";
    assert Converted("") == "";
  }

  lemma ReadsBraces(path: string, i: nat, param: string, closed: bool, next: nat)
    requires i < next <= |path| && path[i] == '{'
    requires forall k :: 0 <= k < |param| ==> param[k] != '}'
    requires path[i + 1..] == param + (if closed then ['}'] + path[next..] else "") && (!closed ==> next == |path|)
    ensures Reads(path, i, Routed(ParamOf(param, closed)), next)
  {
    assert path[i..] == ['{'] + path[i + 1..];
    assert path[i..] == ['{'] + param + (if closed then ['}'] + path[next..] else "");
    BracesAreConverted(path[i..], param, closed, path[next..]);
  }

  lemma ReadsLiteral(path: string, i: nat)
    requires i < |path| && path[i] != '{'
    ensures Reads(path, i, [path[i]], i + 1)
  {
    var todo := path[i..];
    assert todo[1..] == path[i + 1..];
    assert FirstSegment(todo) == Lit(path[i]) && Rest(todo) == todo[1..];
  }

  /** What is written for the text between two braces. */
  method ConvertParameter(param: string, closed: bool) returns (piece: string)
    ensures piece == Routed(ParamOf(param, closed))
  {
    var colon := Until(param, ':');
    if colon < |param| && param[colon + 1..] == "path" {
      piece := ['{'] + (['*'] + param[..colon]) + ['}'];
    } else if colon < |param| {
      piece := ['{'] + ([] + param[..colon]) + ['}'];
    } else {
      piece := ['{'] + ([] + param) + ['}'];
    }
  }

  /** Collects the characters up to a closing brace, which is consumed, or to the end. */
  method CollectParameter(path: string, start: nat) returns (param: string, closed: bool, next: nat)
    requires start <= |path|
    ensures start <= next <= |path|
    ensures forall k :: 0 <= k < |param| ==> param[k] != '}'
    ensures path[start..] == param + (if closed then ['}'] + path[next..] else "")
    ensures !closed ==> next == |path|
  {
    param, next := "", start;
    while next < |path| && path[next] != '}'
      invariant start <= next <= |path|
      invariant path[start..] == param + path[next..]
      invariant forall k :: 0 <= k < |param| ==> param[k] != '}'
    {
      assert path[next..] == [path[next]] + path[next + 1..];
      param := param + [path[next]];
      next := next + 1;
    }
    closed := next < |path|;
    if closed {
      assert path[next..] == ['}'] + path[next + 1..];
      next := next + 1;
    }
  }

  /** The character loop of the router computes Converted. */
  method ConvertPath(path: string) returns (result: string)
    ensures result == Converted(path)
  {
    result := "";
    var i := 0;
    AllIsWritten(path);
    while i < |path|
      invariant i <= |path| && Written(path, i, result)
    {
      var piece := [path[i]];
      var next := i + 1;
      if path[i] == '{' {
        var param, closed, end := CollectParameter(path, i + 1);
        ReadsBraces(path, i, param, closed, end);
        piece := ConvertParameter(param, closed);
        next := end;
      } else {
        ReadsLiteral(path, i);
      }
      OneMoreWritten(path, i, result, piece, next);
      result, i := result + piece, next;
    }
  }

  /** A match of the parameter pattern: a name and, after a colon, a converter. */
  datatype Match = Match(name: string, converter: Option<string>)

  predicate FitsPattern(m: Match) {
    && m.name != "" && (forall i :: 0 <= i < |m.name| ==> m.name[i] != '}' && m.name[i] != ':')
    && (m.converter.Some? ==>
          m.converter.value != "" && forall i :: 0 <= i < |m.converter.value| ==> m.converter.value[i] != '}')
  }

  function Inside(m: Match): string {
    match m.converter
    case None => m.name
    case Some(t) => m.name + [':'] + t
  }

  /** The text of a match. */
  function Text(m: Match): string {
    ['{'] + Inside(m) + ['}']
  }

  function MatchAt(s: string): Option<Match>
    requires s != ""
  {
    var p := FirstSegment(s);
    if p.Param? && Plain(p) then Some(Match(p.name, p.converter)) else None
  }

  /** Matching is what the regular expression says: a name without brace end and colon,
      then optionally a colon and a converter, between braces. There is at most one way. */
  lemma MatchAtIsThePattern(s: string, m: Match)
    requires s != ""
    ensures MatchAt(s) == Some(m) <==> FitsPattern(m) && Text(m) <= s
  {
    if FitsPattern(m) && Text(m) <= s {
      MatchIsFound(s, m, Inside(m));
    }
    if MatchAt(s) == Some(m) {
      FoundIsMatch(s, m, Until(s[1..], '}'));
    }
  }

  lemma InsideHasNoBraceEnd(m: Match, k: nat)
    requires FitsPattern(m) && k < |Inside(m)|
    ensures Inside(m)[k] != '}'
    ensures k < |m.name| ==> Inside(m)[k] != ':'
  {
  }

  lemma MatchIsFound(s: string, m: Match, inside: string)
    requires FitsPattern(m) && Text(m) <= s && inside == Inside(m)
    ensures MatchAt(s) == Some(m)
  {
    var n := |inside|;
    assert s[0] == '{' && s[1..n + 1] == inside && s[n + 1] == '}';
    forall k | 0 <= k < n ensures s[1..][k] != '}' {
      InsideHasNoBraceEnd(m, k);
      assert s[1..][k] == inside[k];
    }
    UntilIsUnique(s[1..], '}', n);
    forall k | 0 <= k < |m.name| ensures inside[k] != ':' {
      InsideHasNoBraceEnd(m, k);
    }
    UntilIsUnique(inside, ':', |m.name|);
    assert FirstSegment(s) == ParamOf(inside, true);
    if m.converter.Some? {
      assert inside[|m.name| + 1..] == m.converter.value && inside[..|m.name|] == m.name;
    }
  }

  lemma ParamIsPrinted(body: string, closed: bool)
    ensures var p := ParamOf(body, closed); Inside(Match(p.name, p.converter)) == body
  {
    var colon := Until(body, ':');
    if colon < |body| {
      assert body == body[..colon] + [':'] + body[colon + 1..];
    }
  }

  lemma FoundIsMatch(s: string, m: Match, n: nat)
    requires s != "" && MatchAt(s) == Some(m) && n == Until(s[1..], '}')
    ensures FitsPattern(m) && Text(m) <= s && |Text(m)| == n + 2 && n < |s| - 1
  {
    var body := s[1..n + 1];
    assert forall k :: 0 <= k < |body| ==> body[k] == s[1..][k] != '}';
    ParamFits(body, m);
    ParamIsPrinted(body, true);
    assert s[n + 1] == s[1..][n] == '}';
    BodyInBraces(s, body, n);
  }

  lemma BodyInBraces(s: string, body: string, n: nat)
    requires n + 1 < |s| && s[0] == '{' && body == s[1..n + 1] && s[n + 1] == '}'
    ensures ['{'] + body + ['}'] == s[..n + 2]
  {
  }

  lemma ParamFits(body: string, m: Match)
    requires forall k :: 0 <= k < |body| ==> body[k] != '}'
    requires ParamOf(body, true) == Param(m.name, m.converter, true) && Plain(ParamOf(body, true))
    ensures FitsPattern(m)
  {
  }

  /** What stands between the brackets of a parameter. */
  function Bracketed(p: Segment): string
    requires p.Param?
  {
    (if IsCatchAll(p) then "path:" else "") + p.name
  }

  /** One segment in the syntax of Django's path converters. */
  function Reversed(p: Segment): string {
    match p
    case Lit(c) => [c]
    case Param(_, _, _) => ['<'] + Bracketed(p) + ['>']
  }

  function RenderReversed(segments: seq<Segment>): string {
    if segments == [] then "" else Reversed(segments[0]) + RenderReversed(segments[1..])
  }

  /** Replaces every match, from left to right. */
  function Substitute(s: string): string
    decreases |s|
  {
    if s == "" then ""
    else if MatchAt(s).Some? then
      var m := MatchAt(s).value;
      FoundIsMatch(s, m, Until(s[1..], '}'));
      Reversed(Param(m.name, m.converter, true)) + Substitute(s[|Text(m)|..])
    else [s[0]] + Substitute(s[1..])
  }

  function ToDjangoRoute(path: string): string {
    Registration.StripLeft(Substitute(path))
  }

  // --- idempotence ----------------------------------------------------------------------------

  /** A parameter as it stands in a converted path: no converter, a star for a catch-all. */
  function Settled(p: Segment): Segment {
    match p
    case Lit(_) => p
    case Param(name, converter, _) => Param((if converter == Some("path") then "*" else "") + name, None, true)
  }

  function SettledAll(segments: seq<Segment>): (r: seq<Segment>)
    ensures |r| == |segments| && forall i :: 0 <= i < |r| ==> r[i] == Settled(segments[i])
  {
    seq(|segments|, i requires 0 <= i < |segments| => Settled(segments[i]))
  }

  /** What every segment of a scanned path satisfies. */
  predicate Scanned(p: Segment) {
    match p
    case Lit(c) => c != '{'
    case Param(name, _, _) => forall i :: 0 <= i < |name| ==> name[i] != '}' && name[i] != ':'
  }

  lemma FirstIsScanned(s: string)
    requires s != ""
    ensures Scanned(FirstSegment(s))
  {
    var n := Until(s[1..], '}');
    var body := s[1..n + 1];
    assert forall i :: 0 <= i < |body| ==> body[i] == s[1..][i];
  }

  lemma {:induction false} SegmentsAreScanned(s: string)
    ensures forall i :: 0 <= i < |Segments(s)| ==> Scanned(Segments(s)[i])
    decreases |s|
  {
    if s != "" {
      FirstIsScanned(s);
      SegmentsAreScanned(Rest(s));
    }
  }

  /** Printed text in front of anything is read back as the settled segment. */
  lemma RoutedIsRead(p: Segment, rest: string)
    requires Scanned(p)
    ensures Routed(p) != ""
    ensures FirstSegment(Routed(p) + rest) == Settled(p) && Rest(Routed(p) + rest) == rest
  {
    var s := Routed(p) + rest;
    if p.Param? {
      BracedIsRead(Mark(p) + p.name, rest, s);
    }
  }

  lemma OneSegmentRead(p: Segment, rest: string)
    requires Scanned(p)
    ensures Segments(Routed(p) + rest) == [Settled(p)] + Segments(rest)
  {
    var s := Routed(p) + rest;
    RoutedIsRead(p, rest);
    assert s != "";
    assert Segments(s) == [FirstSegment(s)] + Segments(Rest(s));
  }

  lemma SettledAllCons(segments: seq<Segment>)
    requires segments != []
    ensures SettledAll(segments) == [Settled(segments[0])] + SettledAll(segments[1..])
  {
  }

  lemma BracedIsRead(name: string, rest: string, s: string)
    requires forall i :: 0 <= i < |name| ==> name[i] != '}' && name[i] != ':'
    requires s == ['{'] + name + ['}'] + rest
    ensures FirstSegment(s) == Param(name, None, true) && Rest(s) == rest
  {
    assert s[1..] == name + ['}'] + rest;
    UntilIsUnique(s[1..], '}', |name|);
    assert s[1..|name| + 1] == name;
    UntilIsUnique(name, ':', |name|);
    assert s[|name| + 2..] == rest;
  }

  /** A converted path has the same segments as the template, each one settled: the same
      literals, the same parameters in the same order, starred exactly when their converter
      is "path". */
  lemma {:induction false} ConvertedSegments(segments: seq<Segment>)
    requires forall i :: 0 <= i < |segments| ==> Scanned(segments[i])
    ensures Segments(RenderRouted(segments)) == SettledAll(segments)
  {
    if segments == [] {
      assert RenderRouted(segments) == "";
    } else {
      ConvertedSegments(segments[1..]);
      OneSegmentRead(segments[0], RenderRouted(segments[1..]));
      SettledAllCons(segments);
    }
  }

  lemma ConvertKeepsParameters(path: string)
    ensures Segments(Converted(path)) == SettledAll(Segments(path))
  {
    SegmentsAreScanned(path);
    ConvertedSegments(Segments(path));
  }

  lemma SettledIsRoutedAlike(p: Segment)
    ensures Routed(Settled(p)) == Routed(p)
  {
    if p.Param? {
      assert !IsCatchAll(Settled(p));
      assert "" + (Mark(p) + p.name) == Mark(p) + p.name;
    }
  }

  lemma {:induction false} SettlingChangesNoText(segments: seq<Segment>)
    ensures RenderRouted(SettledAll(segments)) == RenderRouted(segments)
  {
    if segments != [] {
      SettledAllCons(segments);
      assert SettledAll(segments)[1..] == SettledAll(segments[1..]);
      SettlingChangesNoText(segments[1..]);
      SettledIsRoutedAlike(segments[0]);
    }
  }

  /** Main result: converting twice is converting once, on every string. */
  lemma ConvertIsIdempotent(path: string)
    ensures Converted(Converted(path)) == Converted(path)
  {
    ConvertKeepsParameters(path);
    SettlingChangesNoText(Segments(path));
  }

  // --- agreement of the two conversions ----------------------------------------------------------

  /** A parameter that both sides read: closed, named, and its converter, if any, not empty. */
  predicate Plain(p: Segment) {
    p.Param? ==> p.closed && p.name != "" && p.converter != Some("")
  }

  ghost predicate WellFormed(path: string) {
    forall i :: 0 <= i < |Segments(path)| ==> Plain(Segments(path)[i])
  }

  /** The substitution follows the scan as long as the segments are plain. */
  lemma SubstituteFollows(s: string)
    requires s != "" && Plain(FirstSegment(s))
    ensures Substitute(s) == Reversed(FirstSegment(s)) + Substitute(Rest(s))
  {
    var p := FirstSegment(s);
    if s[0] == '{' {
      var m, n := MatchAt(s).value, Until(s[1..], '}');
      FoundIsMatch(s, m, n);
      assert Rest(s) == s[|Text(m)|..];
      assert Reversed(Param(m.name, m.converter, true)) == Reversed(p);
    } else {
      assert MatchAt(s).None?;
    }
  }

  lemma {:induction false} WellFormedIsSubstituted(s: string)
    requires WellFormed(s)
    ensures Substitute(s) == RenderReversed(Segments(s))
    decreases |s|
  {
    if s != "" {
      WellFormedUnfold(s);
      RenderUnfold(s);
      SubstituteFollows(s);
      WellFormedIsSubstituted(Rest(s));
    }
  }

  lemma RenderUnfold(s: string)
    requires s != ""
    ensures RenderReversed(Segments(s)) == Reversed(FirstSegment(s)) + RenderReversed(Segments(Rest(s)))
  {
    assert Segments(s)[1..] == Segments(Rest(s));
  }

  lemma WellFormedUnfold(s: string)
    requires s != ""
    ensures WellFormed(s) <==> Plain(FirstSegment(s)) && WellFormed(Rest(s))
  {
    var all, rest := Segments(s), Segments(Rest(s));
    assert all == [FirstSegment(s)] + rest;
    if WellFormed(s) {
      assert Plain(all[0]);
      forall i | 0 <= i < |rest| ensures Plain(rest[i]) {
        assert rest[i] == all[i + 1];
      }
    }
  }

  // --- reading the reverse route back -------------------------------------------------------------

  /** A piece of a Django route: a character, or a parameter and its converter. */
  datatype Piece = Char(c: char) | Arg(name: string, converter: Option<string>)

  /** The text between angle brackets: a converter counts only with a name behind its colon. */
  function ArgOf(body: string): Piece {
    var colon := Until(body, ':');
    if 0 < colon < |body| - 1 then Arg(body[colon + 1..], Some(body[..colon])) else Arg(body, None)
  }

  /** A bracket opens a parameter when a closing one follows, with something in between. */
  predicate Opens(rest: string) {
    0 < Until(rest, '>') < |rest|
  }

  function BracketBody(s: string): (body: string)
    requires s != "" && Opens(s[1..])
    ensures body != ""
  {
    s[1..Until(s[1..], '>') + 1]
  }

  function BehindBrackets(s: string): (rest: string)
    requires s != "" && Opens(s[1..])
    ensures |rest| < |s|
  {
    s[Until(s[1..], '>') + 2..]
  }

  function ReadRoute(s: string): seq<Piece>
    decreases |s|
  {
    if s == "" then []
    else if s[0] == '<' && Opens(s[1..]) then
      [ArgOf(BracketBody(s))] + ReadRoute(BehindBrackets(s))
    else [Char(s[0])] + ReadRoute(s[1..])
  }

  /** A segment of the router as a piece: catch-alls are the parameters with a converter. */
  function Served(p: Segment): Piece {
    match p
    case Lit(c) => Char(c)
    case Param(name, _, _) => Arg(name, if IsCatchAll(p) then Some("path") else None)
  }

  function ServedAll(segments: seq<Segment>): seq<Piece> {
    if segments == [] then [] else [Served(segments[0])] + ServedAll(segments[1..])
  }

  function DropSlashes(pieces: seq<Piece>): seq<Piece> {
    if pieces != [] && pieces[0] == Char('/') then DropSlashes(pieces[1..]) else pieces
  }

  /** The segment shows a closing bracket in the reverse route. */
  predicate ShowsBracket(p: Segment) {
    p.Param? || p.c == '>'
  }

  /** The first segment is read back as it is: a plain parameter without a closing bracket in
      its name, or a literal that is not an opening bracket, or one with no closing bracket
      behind it or with one right behind it. */
  predicate FirstIsReadable(segments: seq<Segment>)
    requires segments != []
  {
    match segments[0]
    case Param(name, _, _) => Plain(segments[0]) && '>' !in name
    case Lit(c) =>
      c == '<' ==> (|segments| > 1 && segments[1] == Lit('>')) || !exists i :: 0 < i < |segments| && ShowsBracket(segments[i])
  }

  ghost predicate Readable(segments: seq<Segment>) {
    forall i: nat :: i < |segments| ==> FirstIsReadable(segments[i..])
  }

  lemma ReadableUnfold(segments: seq<Segment>)
    requires segments != []
    ensures Readable(segments) <==> FirstIsReadable(segments) && Readable(segments[1..])
  {
    var rest := segments[1..];
    if Readable(segments) {
      assert segments[0..] == segments;
      forall i: nat | i < |rest| ensures FirstIsReadable(rest[i..]) {
        assert rest[i..] == segments[i + 1..];
      }
    }
    if FirstIsReadable(segments) && Readable(rest) {
      forall i: nat | i < |segments| ensures FirstIsReadable(segments[i..]) {
        assert segments[i..] == if i == 0 then segments else rest[i - 1..];
      }
    }
  }

  lemma ReadableIsWellFormed(s: string)
    requires Readable(Segments(s))
    ensures WellFormed(s)
  {
    var all := Segments(s);
    forall i: nat | i < |all| ensures Plain(all[i]) {
      assert FirstIsReadable(all[i..]) && all[i..][0] == all[i];
    }
  }

  lemma {:induction false} UntilFinds(s: string, c: char)
    ensures Until(s, c) < |s| <==> c in s
  {
    if s != "" && s[0] != c {
      UntilFinds(s[1..], c);
      assert s == [s[0]] + s[1..];
    }
  }

  lemma ReversedShowsBracket(p: Segment)
    ensures '>' in Reversed(p) <==> ShowsBracket(p)
    ensures Reversed(p) != "" && (Reversed(p)[0] == '>' <==> p == Lit('>'))
  {
    if p.Param? {
      assert Reversed(p)[|Reversed(p)| - 1] == '>' && Reversed(p)[0] == '<';
    }
  }

  lemma InConcat(a: string, b: string, c: char)
    ensures c in a + b <==> c in a || c in b
  {
  }

  lemma {:induction false} RenderShowsBracket(segments: seq<Segment>)
    ensures '>' in RenderReversed(segments) <==> exists i :: 0 <= i < |segments| && ShowsBracket(segments[i])
  {
    if segments != [] {
      var rest := segments[1..];
      ReversedShowsBracket(segments[0]);
      RenderShowsBracket(rest);
      InConcat(Reversed(segments[0]), RenderReversed(rest), '>');
      if i :| 0 <= i < |segments| && ShowsBracket(segments[i]) && i > 0 { assert ShowsBracket(rest[i - 1]); }
      if i :| 0 <= i < |rest| && ShowsBracket(rest[i]) { assert ShowsBracket(segments[i + 1]); }
    }
  }

  lemma BracketBehindIff(all: seq<Segment>, rest: seq<Segment>)
    requires all == [Lit('<')] + rest
    ensures '>' in RenderReversed(rest) <==> exists i :: 0 < i < |all| && ShowsBracket(all[i])
  {
    RenderShowsBracket(rest);
    SameBrackets(all, rest);
  }

  lemma SameBrackets(all: seq<Segment>, rest: seq<Segment>)
    requires all == [Lit('<')] + rest
    ensures (exists i :: 0 < i < |all| && ShowsBracket(all[i])) <==> exists i :: 0 <= i < |rest| && ShowsBracket(rest[i])
  {
    if i :| 0 <= i < |rest| && ShowsBracket(rest[i]) { assert ShowsBracket(all[i + 1]); }
    if i :| 0 < i < |all| && ShowsBracket(all[i]) { assert ShowsBracket(rest[i - 1]); }
  }

  /** A literal opening bracket is read as such exactly when no closing one gives it a body. */
  lemma BracketIsReadIff(rest: seq<Segment>)
    ensures Opens(RenderReversed(rest)) <==> !FirstIsReadable([Lit('<')] + rest)
  {
    var all, text := [Lit('<')] + rest, RenderReversed(rest);
    UntilFinds(text, '>');
    BracketBehindIff(all, rest);
    if rest != [] {
      ReversedShowsBracket(rest[0]);
      assert text[0] == Reversed(rest[0])[0];
      assert all[1] == rest[0];
    }
  }

  lemma ReadChar(c: char, rest: string)
    requires c != '<' || !Opens(rest)
    ensures ReadRoute([c] + rest) == [Char(c)] + ReadRoute(rest)
  {
    assert ([c] + rest)[1..] == rest;
  }

  lemma ReadBrackets(body: string, rest: string)
    requires body != "" && '>' !in body
    ensures ReadRoute(['<'] + body + ['>'] + rest) == [ArgOf(body)] + ReadRoute(rest)
  {
    var s := ['<'] + body + ['>'] + rest;
    BracketSlices(s, body, rest);
    ReadArg(s, body, rest);
  }

  lemma ClosingBracketEnds(body: string, rest: string)
    requires '>' !in body
    ensures Until(body + ['>'] + rest, '>') == |body|
  {
    var s := body + ['>'] + rest;
    assert forall i :: 0 <= i < |body| ==> s[i] == body[i] && body[i] in body;
    UntilIsUnique(s, '>', |body|);
  }

  lemma BracketSlices(s: string, body: string, rest: string)
    requires s == ['<'] + body + ['>'] + rest && body != "" && '>' !in body
    ensures s != "" && s[0] == '<' && Opens(s[1..])
    ensures BracketBody(s) == body && BehindBrackets(s) == rest
  {
    assert s[1..] == body + ['>'] + rest;
    ClosingBracketEnds(body, rest);
  }

  lemma ReadArg(s: string, body: string, rest: string)
    requires s != "" && s[0] == '<' && Opens(s[1..]) && BracketBody(s) == body && BehindBrackets(s) == rest
    ensures ReadRoute(s) == [ArgOf(body)] + ReadRoute(rest)
  {
  }

  /** Text in brackets with a closing bracket inside is read as something shorter. */
  lemma ReadCutOff(body: string, rest: string)
    requires '>' in body
    ensures var q, pieces := Until(body, '>'), ReadRoute(['<'] + body + ['>'] + rest);
            q < |body| && pieces != [] && pieces[0] == if q == 0 then Char('<') else ArgOf(body[..q])
  {
    var s := ['<'] + body + ['>'] + rest;
    var q := Until(body, '>');
    UntilFinds(body, '>');
    assert s[1..] == body + ['>'] + rest;
    UntilIsUnique(s[1..], '>', q);
    assert s[1..q + 1] == body[..q];
  }

  /** Names without a colon come back, and any shorter text does not. */
  lemma BracketedIsServed(p: Segment, body: string)
    requires p.Param? && Scanned(p) && p.name != "" && body != "" && body <= Bracketed(p)
    ensures ArgOf(body) == Served(p) <==> body == Bracketed(p)
  {
    if IsCatchAll(p) {
      if |body| > 4 {
        UntilIsUnique(body, ':', 4);
        assert body[..4] == "path";
        assert Bracketed(p)[5..] == p.name;
      } else {
        UntilIsUnique(body, ':', |body|);
      }
    } else {
      assert Bracketed(p) == p.name;
      assert forall i :: 0 <= i < |body| ==> body[i] == p.name[i];
      UntilIsUnique(body, ':', |body|);
    }
  }

  lemma ParamIsReadIff(p: Segment, rest: string, pieces: seq<Piece>)
    requires p.Param? && Plain(p) && Scanned(p)
    ensures ReadRoute(Reversed(p) + rest) == [Served(p)] + pieces <==> '>' !in p.name && ReadRoute(rest) == pieces
  {
    var body := Bracketed(p);
    assert '>' in body <==> '>' in p.name;
    if '>' in p.name {
      ReadCutOff(body, rest);
      var q := Until(body, '>');
      if q > 0 { BracketedIsServed(p, body[..q]); }
      assert ([Served(p)] + pieces)[0] == Served(p);
    } else {
      ReadBrackets(body, rest);
      BracketedIsServed(p, body);
      assert ([Served(p)] + pieces)[1..] == pieces;
      assert ([ArgOf(body)] + ReadRoute(rest))[1..] == ReadRoute(rest);
    }
  }

  /** One segment more, when its text is followed by that of the rest. */
  lemma LiteralIsReadIff(c: char, segments: seq<Segment>, text: string)
    requires Readable(segments) ==> text == RenderReversed(segments)
    requires ReadRoute(text) == ServedAll(segments) <==> Readable(segments)
    ensures ReadRoute([c] + text) == [Char(c)] + ServedAll(segments) <==> Readable([Lit(c)] + segments)
  {
    var all := [Lit(c)] + segments;
    assert all[1..] == segments;
    ReadableUnfold(all);
    if c == '<' { BracketIsReadIff(segments); }
    if c == '<' && Opens(text) {
      ReadOpened(text);
      assert ([Char(c)] + ServedAll(segments))[0] == Char(c);
    } else {
      ReadChar(c, text);
      SameTails(Char(c), ReadRoute(text), ServedAll(segments));
    }
  }

  lemma ReadOpened(rest: string)
    requires Opens(rest)
    ensures ReadRoute(['<'] + rest) != [] && ReadRoute(['<'] + rest)[0].Arg?
  {
    assert (['<'] + rest)[1..] == rest;
  }

  lemma SameTails(p: Piece, a: seq<Piece>, b: seq<Piece>)
    ensures [p] + a == [p] + b <==> a == b
  {
    assert ([p] + a)[1..] == a && ([p] + b)[1..] == b;
  }

  /** What is read back from the substituted template, against what the router serves. */
  ghost predicate ReadsBack(s: string) {
    ReadRoute(Substitute(s)) == ServedAll(Segments(s))
  }

  lemma SegmentsUnfold(s: string)
    requires s != ""
    ensures Segments(s) == [FirstSegment(s)] + Segments(Rest(s))
    ensures ServedAll(Segments(s)) == [Served(FirstSegment(s))] + ServedAll(Segments(Rest(s)))
  {
    assert Segments(s)[1..] == Segments(Rest(s));
  }

  lemma MalformedIsMisread(s: string)
    requires s != "" && !Plain(FirstSegment(s))
    ensures !ReadsBack(s)
  {
    SegmentsUnfold(s);
    assert MatchAt(s).None?;
    assert Substitute(s) == ['{'] + Substitute(s[1..]);
    ReadChar('{', Substitute(s[1..]));
    assert ReadRoute(Substitute(s))[0] == Char('{');
    assert ServedAll(Segments(s))[0].Arg?;
  }

  lemma {:induction false} ReadsBackIff(s: string)
    ensures ReadsBack(s) <==> Readable(Segments(s))
    decreases |s|
  {
    if s != "" {
      var p, rest := FirstSegment(s), Rest(s);
      SegmentsUnfold(s);
      ReadableUnfold(Segments(s));
      assert Segments(s)[1..] == Segments(rest);
      ReadsBackIff(rest);
      if !Plain(p) {
        MalformedIsMisread(s);
      } else {
        SubstituteFollows(s);
        FirstIsScanned(s);
        if p.Param? {
          ParamIsReadIff(p, Substitute(rest), ServedAll(Segments(rest)));
        } else {
          if Readable(Segments(rest)) {
            ReadableIsWellFormed(rest);
            WellFormedIsSubstituted(rest);
          }
          LiteralIsReadIff(p.c, Segments(rest), Substitute(rest));
        }
      }
    }
  }

  // --- leading slashes ------------------------------------------------------------------------------

  lemma SlashIsSubstituted(s: string)
    requires s != "" && s[0] == '/'
    ensures Substitute(s) == ['/'] + Substitute(s[1..])
  {
    assert MatchAt(s).None?;
  }

  lemma StripSlash(t: string)
    ensures Registration.StripLeft(['/'] + t) == Registration.StripLeft(t)
  {
    var e := Registration.SlashesEnd(t, 0);
    assert (['/'] + t)[e + 1..] == t[e..];
    Registration.StripLeftIs(['/'] + t, e + 1);
  }

  lemma StripsNothing(s: string)
    requires s == "" || s[0] != '/'
    ensures Registration.StripLeft(s) == s
  {
    Registration.StripLeftIs(s, 0);
  }

  lemma FirstIsNoSlash(s: string)
    requires s != "" && s[0] != '/'
    ensures Substitute(s) != "" && Substitute(s)[0] != '/'
    ensures Served(FirstSegment(s)) != Char('/')
  {
  }

  lemma {:induction false} SlashesComeOffText(s: string)
    ensures ToDjangoRoute(s) == Substitute(Registration.StripLeft(s))
  {
    if s == "" || s[0] != '/' {
      if s != "" { FirstIsNoSlash(s); }
      StripsNothing(s);
      StripsNothing(Substitute(s));
    } else {
      SlashesComeOffText(s[1..]);
      SlashIsSubstituted(s);
      StripSlash(Substitute(s[1..]));
      StripSlash(s[1..]);
      assert s == ['/'] + s[1..];
    }
  }

  lemma SlashFirst(s: string)
    requires s != "" && s[0] == '/'
    ensures DropSlashes(ServedAll(Segments(s))) == DropSlashes(ServedAll(Segments(s[1..])))
    ensures Readable(Segments(s)) <==> Readable(Segments(s[1..]))
  {
    SegmentsUnfold(s);
    assert FirstSegment(s) == Lit('/') && Rest(s) == s[1..];
    ReadableUnfold(Segments(s));
    assert Segments(s)[1..] == Segments(s[1..]);
    assert ServedAll(Segments(s))[1..] == ServedAll(Segments(s[1..]));
  }

  lemma NoSlashFirst(s: string)
    requires s == "" || s[0] != '/'
    ensures DropSlashes(ServedAll(Segments(s))) == ServedAll(Segments(s))
  {
    if s != "" {
      SegmentsUnfold(s);
      FirstIsNoSlash(s);
    }
  }

  lemma {:induction false} SlashesComeOff(s: string, r: string)
    requires r == Registration.StripLeft(s)
    ensures DropSlashes(ServedAll(Segments(s))) == ServedAll(Segments(r))
    ensures Readable(Segments(s)) <==> Readable(Segments(r))
    decreases |s|
  {
    if s == "" || s[0] != '/' {
      StripsNothing(s);
      NoSlashFirst(s);
    } else {
      assert s == ['/'] + s[1..];
      StripSlash(s[1..]);
      SlashesComeOff(s[1..], r);
      SlashFirst(s);
    }
  }

  /** Main result: Django reads the reverse route as the literals and parameters the router
      serves, in order and with the same catch-alls, leading slashes aside, if and only if
      every parameter is closed, named without a closing angle bracket and has no empty
      converter, and no literal opening bracket finds a closing one that gives it a body. */
  lemma TemplatesAgreeIff(path: string)
    ensures ReadRoute(ToDjangoRoute(path)) == DropSlashes(ServedAll(Segments(path))) <==> Readable(Segments(path))
  {
    SlashesComeOffText(path);
    SlashesComeOff(path, Registration.StripLeft(path));
    ReadsBackIff(Registration.StripLeft(path));
  }

  /** A template without angle brackets is read back as soon as it is well formed. */
  lemma WithoutBracketsWellFormedSuffices(path: string)
    requires WellFormed(path) && '<' !in path && '>' !in path
    ensures ReadRoute(ToDjangoRoute(path)) == DropSlashes(ServedAll(Segments(path)))
  {
    var all := Segments(path);
    SegmentsComeFromText(path);
    forall i: nat | i < |all| ensures FirstIsReadable(all[i..]) {
      assert all[i..][0] == all[i] && Plain(all[i]);
    }
    TemplatesAgreeIff(path);
  }

  lemma {:induction false} SegmentsComeFromText(s: string)
    requires '<' !in s && '>' !in s
    ensures forall i :: 0 <= i < |Segments(s)| ==>
              if Segments(s)[i].Param? then '>' !in Segments(s)[i].name else Segments(s)[i].c != '<'
    decreases |s|
  {
    if s != "" {
      SegmentsUnfold(s);
      FirstIsPrinted(s, Until(s[1..], '}'));
      SegmentsComeFromText(Rest(s));
    }
  }

  predicate Ordinary(c: char) {
    c != '{' && c != '}' && c != ':' && c != '<' && c != '>' && c != '/'
  }

  lemma SegmentsOfLiteral(c: char, literal: string)
    requires Ordinary(c) && literal == ['<', c, '>']
    ensures Segments(literal) == [Lit('<'), Lit(c), Lit('>')]
  {
    SegmentsUnfold(literal);
    assert literal[1..] == [c, '>'];
    SegmentsUnfold([c, '>']);
    assert [c, '>'][1..] == ['>'];
    SegmentsUnfold(['>']);
    assert ['>'][1..] == "";
  }

  lemma SegmentsOfParam(c: char, param: string)
    requires Ordinary(c) && param == ['{', c, '}']
    ensures Segments(param) == [Param([c], None, true)]
  {
    assert param == ['{'] + [c] + ['}'] + "";
    BracedIsRead([c], "", param);
    SegmentsUnfold(param);
    assert Segments("") == [];
  }

  lemma BracketsAreRenderedAlike(c: char)
    ensures RenderReversed([Lit('<'), Lit(c), Lit('>')]) == ['<', c, '>']
    ensures RenderReversed([Param([c], None, true)]) == ['<', c, '>']
  {
    var p := [Param([c], None, true)];
    RenderThree(Lit('<'), Lit(c), Lit('>'));
    assert RenderReversed(p) == Reversed(p[0]) + RenderReversed(p[1..]) == Reversed(p[0]);
  }

  lemma LiteralBracketsAreNotReadable(c: char)
    requires Ordinary(c)
    ensures !Readable([Lit('<'), Lit(c), Lit('>')])
  {
    var l := [Lit('<'), Lit(c), Lit('>')];
    assert ShowsBracket(l[2]);
    assert !FirstIsReadable(l) && l[0..] == l;
  }

  /** A well-formed template whose substituted text is what its segments print. */
  lemma SubstitutedAs(s: string, segments: seq<Segment>, text: string)
    requires Segments(s) == segments && RenderReversed(segments) == text
    requires forall i :: 0 <= i < |segments| ==> Plain(segments[i])
    ensures WellFormed(s) && Substitute(s) == text
  {
    WellFormedIsSubstituted(s);
  }

  /** The failing input: literal brackets are read as a parameter, so two well-formed templates
      that the router tells apart share one reverse route. */
  lemma LiteralBracketsAreMisread(c: char, literal: string, param: string)
    requires Ordinary(c) && literal == ['<', c, '>'] && param == ['{', c, '}']
    ensures WellFormed(literal) && WellFormed(param)
    ensures ToDjangoRoute(literal) == ToDjangoRoute(param) && Segments(literal) != Segments(param)
    ensures !Readable(Segments(literal))
  {
    SegmentsOfLiteral(c, literal);
    SegmentsOfParam(c, param);
    BracketsAreRenderedAlike(c);
    SubstitutedAs(literal, [Lit('<'), Lit(c), Lit('>')], ['<', c, '>']);
    SubstitutedAs(param, [Param([c], None, true)], ['<', c, '>']);
    LiteralBracketsAreNotReadable(c);
  }

  lemma RenderThree(p: Segment, q: Segment, r: Segment)
    ensures RenderReversed([p, q, r]) == Reversed(p) + (Reversed(q) + Reversed(r))
  {
    assert [p, q, r][1..] == [q, r] && [q, r][1..] == [r] && [r][1..] == [];
    assert RenderReversed([r]) == Reversed(r) + "";
  }

  // --- the scan has an inverse ----------------------------------------------------------------------

  /** The template that a segment was read from. */
  function Source(p: Segment): string {
    match p
    case Lit(c) => [c]
    case Param(name, converter, closed) =>
      var inside := Inside(Match(name, converter));
      if closed then ['{'] + inside + ['}'] else ['{'] + inside
  }

  function SourceAll(segments: seq<Segment>): string {
    if segments == [] then "" else Source(segments[0]) + SourceAll(segments[1..])
  }

  /** The scan loses nothing, so templates with the same segments are the same. */
  lemma {:induction false} ScanIsInvertible(s: string)
    ensures SourceAll(Segments(s)) == s
    decreases |s|
  {
    if s != "" {
      ScanIsInvertible(Rest(s));
      FirstIsPrinted(s, Until(s[1..], '}'));
    }
  }

  lemma BracesAreTaken(s: string, n: nat, body: string)
    requires n < |s| && s[0] == '{' && body == s[1..n + 1]
    requires n < |s| - 1 ==> s[n + 1] == '}'
    ensures s == if n < |s| - 1 then (['{'] + body + ['}']) + s[n + 2..] else ['{'] + body
  {
  }

  lemma FirstIsPrinted(s: string, n: nat)
    requires s != "" && n == Until(s[1..], '}')
    ensures s == Source(FirstSegment(s)) + Rest(s)
  {
    if s[0] == '{' {
      var body, closed := s[1..n + 1], n < |s| - 1;
      assert closed ==> s[n + 1] == s[1..][n];
      BracesAreTaken(s, n, body);
      ParamIsPrinted(body, closed);
      assert FirstSegment(s) == ParamOf(body, closed);
      assert Rest(s) == if closed then s[n + 2..] else "";
    }
  }
}
