/**
 Hand-written JSON error bodies (src/error.rs, src/responses.rs) against the
 string and object grammar of RFC 8259, sections 4 and 7.  Text is modelled as
 characters; surrogate escapes, which are never printed, are rejected.
 */
module JsonEscaping {
  import opened Common

  // --- the escaping chain -------------------------------------------------------------

  /** Rust's str::replace for a one-character pattern. */
  function Replace(s: string, c: char, to: string): string {
    if s == "" then "" else (if s[0] == c then to else [s[0]]) + Replace(s[1..], c, to)
  }

  /** `escape_json`: five replacements, the backslash first. */
  function EscapeJson(s: string): string {
    var s1 := Replace(s, '\\', "\\\\");
    var s2 := Replace(s1, '"', "\\\"");
    var s3 := Replace(s2, '\n', "\\n");
    var s4 := Replace(s3, '\r', "\\r");
    Replace(s4, '\t', "\\t")
  }

  /** One simultaneous per-character map. */
  function EscapeChar(c: char): string {
    if c == '\\' then "\\\\"
    else if c == '"' then "\\\""
    else if c == '\n' then "\\n"
    else if c == '\r' then "\\r"
    else if c == '\t' then "\\t"
    else [c]
  }

  function Escape(s: string): string {
    if s == "" then "" else EscapeChar(s[0]) + Escape(s[1..])
  }

  lemma {:induction false} ReplaceAppend(a: string, b: string, c: char, to: string)
    ensures Replace(a + b, c, to) == Replace(a, c, to) + Replace(b, c, to)
  {
    if a == "" {
      assert a + b == b;
    } else {
      assert (a + b)[0] == a[0] && (a + b)[1..] == a[1..] + b;
      ReplaceAppend(a[1..], b, c, to);
      ConcatAssociative(if a[0] == c then to else [a[0]], Replace(a[1..], c, to), Replace(b, c, to));
    }
  }

  lemma ChainAppend(a: string, b: string)
    ensures EscapeJson(a + b) == EscapeJson(a) + EscapeJson(b)
  {
    ReplaceAppend(a, b, '\\', "\\\\");
    var a1, b1 := Replace(a, '\\', "\\\\"), Replace(b, '\\', "\\\\");
    ReplaceAppend(a1, b1, '"', "\\\"");
    var a2, b2 := Replace(a1, '"', "\\\""), Replace(b1, '"', "\\\"");
    ReplaceAppend(a2, b2, '\n', "\\n");
    var a3, b3 := Replace(a2, '\n', "\\n"), Replace(b2, '\n', "\\n");
    ReplaceAppend(a3, b3, '\r', "\\r");
    ReplaceAppend(Replace(a3, '\r', "\\r"), Replace(b3, '\r', "\\r"), '\t', "\\t");
  }

  lemma ReplaceOne(c: char, x: char, to: string)
    ensures Replace([x], c, to) == if x == c then to else [x]
  {
    assert [x][1..] == "" && Replace("", c, to) == "";
  }

  lemma ReplaceTwo(x: char, y: char, c: char, to: string)
    requires x != c && y != c
    ensures Replace([x, y], c, to) == [x, y]
  {
    assert [x, y] == [x] + [y];
    ReplaceAppend([x], [y], c, to);
    ReplaceOne(c, x, to);
    ReplaceOne(c, y, to);
  }

  /** Later replacements leave the escapes of earlier ones alone. */
  lemma ChainOnOneCharacter(c: char)
    ensures EscapeJson([c]) == EscapeChar(c)
  {
    ReplaceOne('\\', c, "\\\\");
    ReplaceOne('"', c, "\\\"");
    ReplaceOne('\n', c, "\\n");
    ReplaceOne('\r', c, "\\r");
    ReplaceOne('\t', c, "\\t");
    ReplaceTwo('\\', '\\', '"', "\\\"");
    ReplaceTwo('\\', '\\', '\n', "\\n");
    ReplaceTwo('\\', '"', '\n', "\\n");
    ReplaceTwo('\\', '\\', '\r', "\\r");
    ReplaceTwo('\\', '"', '\r', "\\r");
    ReplaceTwo('\\', 'n', '\r', "\\r");
    ReplaceTwo('\\', '\\', '\t', "\\t");
    ReplaceTwo('\\', '"', '\t', "\\t");
    ReplaceTwo('\\', 'n', '\t', "\\t");
    ReplaceTwo('\\', 'r', '\t', "\\t");
  }

  /** Main result: the chain of five replacements is one simultaneous map. */
  lemma {:induction false} ChainIsSimultaneous(s: string)
    ensures EscapeJson(s) == Escape(s)
  {
    if s != "" {
      assert s == [s[0]] + s[1..];
      ChainAppend([s[0]], s[1..]);
      ChainOnOneCharacter(s[0]);
      ChainIsSimultaneous(s[1..]);
    }
  }

  // --- the RFC 8259 string scanner ---------------------------------------------------------

  predicate IsControl(c: char) {
    c < ' '
  }

  function HexValue(c: char): Option<nat> {
    if '0' <= c <= '9' then Some((c - '0') as nat)
    else if 'a' <= c <= 'f' then Some(10 + (c - 'a') as nat)
    else if 'A' <= c <= 'F' then Some(10 + (c - 'A') as nat)
    else None
  }

  function Hex4(s: string): Option<char>
    requires |s| == 4
  {
    var a, b, c, d := HexValue(s[0]), HexValue(s[1]), HexValue(s[2]), HexValue(s[3]);
    if a.None? || b.None? || c.None? || d.None? then None
    else
      var n := ((a.value * 16 + b.value) * 16 + c.value) * 16 + d.value;
      if n < 0xD800 || 0xE000 <= n < 0x10000 then Some(n as char) else None
  }

  function SimpleEscape(c: char): Option<char> {
    if c == '"' || c == '\\' || c == '/' then Some(c)
    else if c == 'b' then Some(8 as char)
    else if c == 'f' then Some(12 as char)
    else if c == 'n' then Some('\n')
    else if c == 'r' then Some('\r')
    else if c == 't' then Some('\t')
    else None
  }

  /** Scans from just after an opening quote: the text up to the closing quote, and what
      follows it.  Raw control characters are not allowed. */
  function Scan(s: string): (r: Option<(string, string)>)
    ensures r.Some? ==> |r.value.1| < |s|
    decreases |s|
  {
    if s == "" || IsControl(s[0]) then None
    else if s[0] == '"' then Some(("", s[1..]))
    else if s[0] != '\\' then Prepend(s[0], Scan(s[1..]))
    else if |s| >= 2 && SimpleEscape(s[1]).Some? then Prepend(SimpleEscape(s[1]).value, Scan(s[2..]))
    else if |s| >= 6 && s[1] == 'u' && Hex4(s[2..6]).Some? then Prepend(Hex4(s[2..6]).value, Scan(s[6..]))
    else None
  }

  function Prepend(c: char, r: Option<(string, string)>): Option<(string, string)> {
    if r.None? then None else Some(([c] + r.value.0, r.value.1))
  }

  /** The only control characters are line feed, carriage return and tab. */
  predicate OnlyEscapableControls(s: string) {
    forall i :: 0 <= i < |s| ==> IsControl(s[i]) ==> s[i] == '\n' || s[i] == '\r' || s[i] == '\t'
  }

  predicate NoControls(s: string) {
    forall i :: 0 <= i < |s| ==> !IsControl(s[i])
  }

  lemma ScanEscapedChar(c: char, rest: string)
    ensures Scan(EscapeChar(c) + rest) ==
              if IsControl(c) && c != '\n' && c != '\r' && c != '\t' then None else Prepend(c, Scan(rest))
  {
    var s := EscapeChar(c) + rest;
    if |EscapeChar(c)| == 1 {
      assert s[0] == c && s[1..] == rest;
    } else {
      assert s[0] == '\\' && s[1] == EscapeChar(c)[1] && s[2..] == rest;
    }
  }

  /** Main result: scanning the escaped text stops exactly at the closing quote and gives
      the original text back, exactly when the text has no control character other than
      LF, CR and TAB; otherwise the body is not JSON. */
  lemma {:induction false} ScanUndoesEscape(s: string, rest: string)
    ensures Scan(EscapeJson(s) + "\"" + rest) == if OnlyEscapableControls(s) then Some((s, rest)) else None
    decreases |s|
  {
    ChainIsSimultaneous(s);
    if s == "" {
      assert Escape(s) + "\"" + rest == "\"" + rest && ("\"" + rest)[1..] == rest;
    } else {
      ChainIsSimultaneous(s[1..]);
      var tail := Escape(s[1..]) + "\"" + rest;
      assert Escape(s) + "\"" + rest == EscapeChar(s[0]) + tail;
      ScanEscapedChar(s[0], tail);
      ScanUndoesEscape(s[1..], rest);
      assert s == [s[0]] + s[1..];
    }
  }

  // --- whole bodies --------------------------------------------------------------------------

  datatype Json = Str(text: string) | Obj(members: Members)

  datatype Members = Nil | Member(key: string, value: Json, rest: Members)

  /** A text between quotes, as the format strings print it. */
  function Quoted(text: string): string {
    "\"" + EscapeJson(text) + "\""
  }

  /** A member with its value already printed. */
  function Named(key: string, value: string): string {
    "\"" + key + "\"" + ":" + value
  }

  function PrintValue(j: Json): string {
    match j
    case Str(text) => Quoted(text)
    case Obj(ms) => "{" + PrintMembers(ms) + "}"
  }

  function PrintMembers(ms: Members): string {
    match ms
    case Nil => ""
    case Member(key, value, Nil) => Named(key, PrintValue(value))
    case Member(key, value, rest) => Named(key, PrintValue(value)) + "," + PrintMembers(rest)
  }

  /** Strings and objects of RFC 8259 without insignificant white space. */
  function ParseValue(s: string): (r: Option<(Json, string)>)
    ensures r.Some? ==> |r.value.1| < |s|
    decreases |s|
  {
    if s == "" then None
    else if s[0] == '"' then
      var t := Scan(s[1..]);
      if t.None? then None else Some((Str(t.value.0), t.value.1))
    else if s[0] == '{' then
      if |s| >= 2 && s[1] == '}' then Some((Obj(Nil), s[2..]))
      else
        var m := ParseMembers(s[1..]);
        if m.None? then None else Some((Obj(m.value.0), m.value.1))
    else None
  }

  function ParseMembers(s: string): (r: Option<(Members, string)>)
    ensures r.Some? ==> |r.value.1| < |s|
    decreases |s|
  {
    if s == "" || s[0] != '"' then None
    else
      var k := Scan(s[1..]);
      if k.None? || k.value.1 == "" || k.value.1[0] != ':' then None
      else
        var v := ParseValue(k.value.1[1..]);
        if v.None? || v.value.1 == "" then None
        else if v.value.1[0] == '}' then Some((Member(k.value.0, v.value.0, Nil), v.value.1[1..]))
        else if v.value.1[0] != ',' then None
        else
          var m := ParseMembers(v.value.1[1..]);
          if m.None? then None else Some((Member(k.value.0, v.value.0, m.value.0), m.value.1))
  }

  predicate PlainKey(key: string) {
    forall i :: 0 <= i < |key| ==> !IsControl(key[i]) && key[i] != '"' && key[i] != '\\'
  }

  predicate PlainKeys(j: Json) {
    j.Str? || PlainMemberKeys(j.members)
  }

  predicate PlainMemberKeys(ms: Members) {
    ms.Nil? || (PlainKey(ms.key) && PlainKeys(ms.value) && PlainMemberKeys(ms.rest))
  }

  /** Every text in the value can be escaped by the chain. */
  predicate Clean(j: Json) {
    match j
    case Str(text) => OnlyEscapableControls(text)
    case Obj(ms) => CleanMembers(ms)
  }

  predicate CleanMembers(ms: Members) {
    ms.Nil? || (Clean(ms.value) && CleanMembers(ms.rest))
  }

  lemma {:induction false} ScanPlainKey(key: string, rest: string)
    requires PlainKey(key)
    ensures Scan(key + "\"" + rest) == Some((key, rest))
    decreases |key|
  {
    var s := key + "\"" + rest;
    if key == "" {
      assert s[1..] == rest;
    } else {
      assert s[1..] == key[1..] + "\"" + rest;
      ScanPlainKey(key[1..], rest);
      assert key == [key[0]] + key[1..];
    }
  }

  lemma {:induction false} ParseUndoesPrint(j: Json, rest: string)
    requires PlainKeys(j)
    ensures ParseValue(PrintValue(j) + rest) == if Clean(j) then Some((j, rest)) else None
    decreases j
  {
    var s := PrintValue(j) + rest;
    match j
    case Str(text) =>
      assert s[1..] == EscapeJson(text) + "\"" + rest;
      ScanUndoesEscape(text, rest);
    case Obj(ms) =>
      if ms.Nil? {
        assert s == "{}" + rest;
        assert s[2..] == rest;
      } else {
        assert s[1..] == PrintMembers(ms) + "}" + rest;
        assert s[1] == '"';
        ParseUndoesPrintMembers(ms, rest);
      }
  }

  /** What follows the first value of a member list. */
  function AfterValue(ms: Members, rest: string): string
    requires ms.Member?
  {
    if ms.rest.Nil? then "}" + rest else "," + (PrintMembers(ms.rest) + "}" + rest)
  }

  lemma Regroup(a: string, b: string, c: string, d: string, e: string, f: string)
    ensures a + b + c + d + e + f == a + (b + c + (d + (e + f)))
  {
  }

  lemma RegroupTail(a: string, b: string, c: string, d: string, e: string)
    ensures a + b + c + d + e == a + (b + (c + d + e))
    ensures a + b + c == a + (b + c)
  {
  }

  lemma MembersShape(ms: Members, rest: string)
    requires ms.Member?
    ensures PrintMembers(ms) + "}" + rest
         == "\"" + (ms.key + "\"" + (":" + (PrintValue(ms.value) + AfterValue(ms, rest))))
  {
    var named := Named(ms.key, PrintValue(ms.value));
    if ms.rest.Nil? {
      RegroupTail(named, "}", rest, "", "");
    } else {
      RegroupTail(named, ",", PrintMembers(ms.rest), "}", rest);
    }
    Regroup("\"", ms.key, "\"", ":", PrintValue(ms.value), AfterValue(ms, rest));
  }

  lemma {:induction false} ParseUndoesPrintMembers(ms: Members, rest: string)
    requires ms.Member? && PlainMemberKeys(ms)
    ensures ParseMembers(PrintMembers(ms) + "}" + rest) == if CleanMembers(ms) then Some((ms, rest)) else None
    decreases ms
  {
    var s := PrintMembers(ms) + "}" + rest;
    var after := AfterValue(ms, rest);
    var afterKey := ":" + (PrintValue(ms.value) + after);
    MembersShape(ms, rest);
    assert s[1..] == ms.key + "\"" + afterKey;
    ScanPlainKey(ms.key, afterKey);
    assert afterKey[1..] == PrintValue(ms.value) + after;
    ParseUndoesPrint(ms.value, after);
    if ms.rest.Nil? {
      assert after[1..] == rest;
    } else {
      assert after[1..] == PrintMembers(ms.rest) + "}" + rest;
      ParseUndoesPrintMembers(ms.rest, rest);
    }
  }

  /** The debug details of an internal error. */
  datatype Extra = Extra(exception: string, exceptionType: string, traceback: string, path: string, verb: string)

  function ExtraBody(e: Extra): string {
    "{" + (Named("exception", Quoted(e.exception)) + ","
           + (Named("exception_type", Quoted(e.exceptionType)) + ","
              + (Named("traceback", Quoted(e.traceback)) + ","
                 + (Named("path", Quoted(e.path)) + ","
                    + Named("method", Quoted(e.verb)))))) + "}"
  }

  /** The body of a 500 response. */
  function InternalErrorBody(detail: string, extra: Option<Extra>): string {
    if extra.Some? then "{" + (Named("detail", Quoted(detail)) + "," + Named("extra", ExtraBody(extra.value))) + "}"
    else "{" + Named("detail", Quoted(detail)) + "}"
  }

  function ExtraJson(e: Extra): Json {
    Obj(Member("exception", Str(e.exception), Member("exception_type", Str(e.exceptionType),
        Member("traceback", Str(e.traceback), Member("path", Str(e.path), Member("method", Str(e.verb), Nil))))))
  }

  function ErrorJson(detail: string, extra: Option<Extra>): Json {
    Obj(Member("detail", Str(detail), if extra.Some? then Member("extra", ExtraJson(extra.value), Nil) else Nil))
  }

  lemma MemberIsPrinted(key: string, value: Json, rest: Members)
    requires PlainKey(key) && PlainKeys(value) && PlainMemberKeys(rest)
    ensures var ms := Member(key, value, rest);
            && PlainMemberKeys(ms)
            && PrintMembers(ms) == if rest.Nil? then Named(key, PrintValue(value))
                                   else Named(key, PrintValue(value)) + "," + PrintMembers(rest)
  {
  }

  lemma ExtraKeysArePlain()
    ensures PlainKey("exception") && PlainKey("exception_type") && PlainKey("traceback")
    ensures PlainKey("path") && PlainKey("method")
  {
  }

  lemma ExtraIsPrinted(e: Extra)
    ensures PrintValue(ExtraJson(e)) == ExtraBody(e)
    ensures PlainKeys(ExtraJson(e))
  {
    ExtraKeysArePlain();
    MemberIsPrinted("method", Str(e.verb), Nil);
    var m5 := Member("method", Str(e.verb), Nil);
    MemberIsPrinted("path", Str(e.path), m5);
    var m4 := Member("path", Str(e.path), m5);
    MemberIsPrinted("traceback", Str(e.traceback), m4);
    var m3 := Member("traceback", Str(e.traceback), m4);
    MemberIsPrinted("exception_type", Str(e.exceptionType), m3);
    var m2 := Member("exception_type", Str(e.exceptionType), m3);
    MemberIsPrinted("exception", Str(e.exception), m2);
  }

  /** Main result: an internal error body is JSON, and parses back to exactly the intended
      texts, if and only if no text holds a control character the chain does not escape. */
  lemma InternalErrorBodyParsesBackIff(detail: string, extra: Option<Extra>)
    ensures ParseValue(InternalErrorBody(detail, extra)) ==
              if Clean(ErrorJson(detail, extra)) then Some((ErrorJson(detail, extra), "")) else None
  {
    var j := ErrorJson(detail, extra);
    ErrorIsPrinted(detail, extra);
    ParseUndoesPrint(j, "");
    assert PrintValue(j) + "" == PrintValue(j);
  }

  lemma ErrorIsPrinted(detail: string, extra: Option<Extra>)
    ensures PrintValue(ErrorJson(detail, extra)) == InternalErrorBody(detail, extra)
    ensures PlainKeys(ErrorJson(detail, extra))
  {
    if extra.Some? {
      ExtraIsPrinted(extra.value);
      MemberIsPrinted("extra", ExtraJson(extra.value), Nil);
      MemberIsPrinted("detail", Str(detail), Member("extra", ExtraJson(extra.value), Nil));
    } else {
      MemberIsPrinted("detail", Str(detail), Nil);
    }
  }

  // --- the byte loop of the 422 response ----------------------------------------------------------

  function EscapeQuotes(s: string): string {
    if s == "" then ""
    else
      var n := |s| - 1;
      EscapeQuotes(s[..n]) + if s[n] == '"' then "\\\"" else if s[n] == '\\' then "\\\\" else [s[n]]
  }

  function ValidationBody(detail: string): string {
    "{\"detail\":\"" + EscapeQuotes(detail) + "\"}"
  }

  method ValidationErrorBody(detail: string) returns (body: string)
    ensures body == ValidationBody(detail)
  {
    body := "{\"detail\":\"";
    for i := 0 to |detail|
      invariant body == "{\"detail\":\"" + EscapeQuotes(detail[..i])
    {
      assert detail[..i + 1][..i] == detail[..i];
      if detail[i] == '"' {
        body := body + "\\\"";
      } else if detail[i] == '\\' {
        body := body + "\\\\";
      } else {
        body := body + [detail[i]];
      }
    }
    assert detail[..|detail|] == detail;
    body := body + "\"}";
  }

  /** For text without control characters the loop agrees with the five-step chain. */
  lemma {:induction false} LoopAgreesWithChain(s: string)
    requires NoControls(s)
    ensures EscapeQuotes(s) == EscapeJson(s)
  {
    if s == "" {
      ChainIsSimultaneous(s);
    } else {
      var n := |s| - 1;
      assert s == s[..n] + [s[n]];
      LoopAgreesWithChain(s[..n]);
      ChainAppend(s[..n], [s[n]]);
      ChainOnOneCharacter(s[n]);
    }
  }

  lemma {:induction false} RawControlStopsScan(s: string, rest: string)
    requires !NoControls(s)
    ensures Scan(EscapeQuotes(s) + rest) == None
    decreases |s|
  {
    var n := |s| - 1;
    assert s == s[..n] + [s[n]];
    if NoControls(s[..n]) {
      assert IsControl(s[n]);
      LoopAgreesWithChain(s[..n]);
      ChainIsSimultaneous(s[..n]);
      assert EscapeQuotes(s) + rest == Escape(s[..n]) + ([s[n]] + rest);
      ScanSkipsEscaped(s[..n], [s[n]] + rest);
    } else {
      var last := EscapeQuotes(s)[|EscapeQuotes(s[..n])|..];
      assert EscapeQuotes(s) + rest == EscapeQuotes(s[..n]) + (last + rest);
      RawControlStopsScan(s[..n], last + rest);
    }
  }

  lemma {:induction false} ScanSkipsEscaped(s: string, rest: string)
    requires NoControls(s)
    ensures Scan(rest) == None ==> Scan(Escape(s) + rest) == None
    decreases |s|
  {
    if s == "" {
      assert Escape(s) + rest == rest;
    } else {
      assert Escape(s) + rest == EscapeChar(s[0]) + (Escape(s[1..]) + rest);
      ScanEscapedChar(s[0], Escape(s[1..]) + rest);
      ScanSkipsEscaped(s[1..], rest);
    }
  }

  lemma MemberIsClean(key: string, value: Json, rest: Members)
    requires Clean(value) && CleanMembers(rest)
    ensures Clean(Obj(Member(key, value, rest)))
  {
  }

  lemma CleanValidationBodyParsesBack(detail: string)
    requires NoControls(detail)
    ensures ParseValue(ValidationBody(detail)) == Some((Obj(Member("detail", Str(detail), Nil)), ""))
  {
    var j := ErrorJson(detail, None);
    assert OnlyEscapableControls(detail);
    LoopAgreesWithChain(detail);
    ValidationBodyShape(EscapeQuotes(detail));
    assert ValidationBody(detail) == InternalErrorBody(detail, None);
    InternalErrorBodyParsesBackIff(detail, None);
    MemberIsClean("detail", Str(detail), Nil);
    assert ParseValue(InternalErrorBody(detail, None)) == Some((j, ""));
  }

  /** Main result: the 422 body parses back to its detail exactly when the detail has no
      control character at all; with one, the body is not JSON. */
  lemma ValidationBodyParsesBackIff(detail: string)
    ensures ParseValue(ValidationBody(detail)) ==
              if NoControls(detail) then Some((Obj(Member("detail", Str(detail), Nil)), "")) else None
  {
    if NoControls(detail) {
      CleanValidationBodyParsesBack(detail);
    } else {
      var value := "\"" + EscapeQuotes(detail) + "\"}";
      RawControlStopsScan(detail, "\"}");
      assert value[1..] == EscapeQuotes(detail) + "\"}";
      assert ParseValue(value) == None;
      var body := ValidationBody(detail);
      ValidationBodyShape(EscapeQuotes(detail));
      assert body[1..][1..] == "detail" + "\"" + (":" + value);
      ScanPlainKey("detail", ":" + value);
      assert (":" + value)[1..] == value;
      assert ParseMembers(body[1..]) == None;
    }
  }

  lemma ValidationBodyShape(escaped: string)
    ensures "{\"detail\":\"" + escaped + "\"}" == "{" + Named("detail", "\"" + escaped + "\"") + "}"
    ensures "{\"detail\":\"" + escaped + "\"}" == "{" + ("\"" + ("detail" + "\"" + (":" + ("\"" + escaped + "\"}"))))
  {
  }
}
