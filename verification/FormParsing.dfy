/**
 Multipart and URL-encoded form parsing (src/form_parsing.rs).  A part body is a
 sequence of chunks that may break off with a read error.  Typed coercion of a
 field's bytes is an arbitrary function; disk failures are not modelled.
 */
module FormParsing {
  import opened Common

  datatype ErrorType =
    | ParseError | TooManyParts | MultipartError | ReadFailed
    | FileTooLarge | FileTooSmall | InvalidContentType | TooManyFiles | TypeError

  // --- grouping repeated keys --------------------------------------------------------

  datatype FormValue<V> = Single(value: V) | Multi(values: seq<V>)
  {
    function Append(v: V): FormValue<V> {
      match this
      case Single(prev) => Multi([prev, v])
      case Multi(vs) => Multi(vs + [v])
    }
  }

  /** The values filed under a name, in order. */
  function Select<T>(pairs: seq<(string, T)>, name: string): seq<T> {
    if pairs == [] then []
    else
      var last := pairs[|pairs| - 1];
      var before := Select(pairs[..|pairs| - 1], name);
      if last.0 == name then before + [last.1] else before
  }

  function FromValues<V>(vs: seq<V>): FormValue<V>
    requires vs != []
  {
    if |vs| == 1 then Single(vs[0]) else Multi(vs)
  }

  /** A form map holds exactly the names that occur, each with all its values in order. */
  ghost predicate GroupsValues<V>(m: map<string, FormValue<V>>, pairs: seq<(string, V)>) {
    forall name :: (name in m <==> Select(pairs, name) != []) && (name in m ==> m[name] == FromValues(Select(pairs, name)))
  }

  ghost predicate GroupsFiles(m: map<string, seq<FileInfo>>, pairs: seq<(string, FileInfo)>) {
    forall name :: (name in m <==> Select(pairs, name) != []) && (name in m ==> m[name] == Select(pairs, name))
  }

  lemma SelectSnoc<T>(pairs: seq<(string, T)>, x: (string, T), name: string)
    ensures Select(pairs + [x], name) == if x.0 == name then Select(pairs, name) + [x.1] else Select(pairs, name)
  {
    assert (pairs + [x])[..|pairs|] == pairs;
  }

  /** Two maps that group the same pairs are equal. */
  lemma GroupingIsUnique<V>(m1: map<string, FormValue<V>>, m2: map<string, FormValue<V>>, pairs: seq<(string, V)>)
    requires GroupsValues(m1, pairs) && GroupsValues(m2, pairs)
    ensures m1 == m2
  {
  }

  method AddValue<V>(m: map<string, FormValue<V>>, ghost pairs: seq<(string, V)>, name: string, v: V)
    returns (r: map<string, FormValue<V>>)
    requires GroupsValues(m, pairs)
    ensures GroupsValues(r, pairs + [(name, v)])
  {
    r := if name in m then m[name := m[name].Append(v)] else m[name := Single(v)];
    forall n ensures (n in r <==> Select(pairs + [(name, v)], n) != [])
                  && (n in r ==> r[n] == FromValues(Select(pairs + [(name, v)], n))) {
      SelectSnoc(pairs, (name, v), n);
    }
  }

  method AddFile(m: map<string, seq<FileInfo>>, ghost pairs: seq<(string, FileInfo)>, name: string, f: FileInfo)
    returns (r: map<string, seq<FileInfo>>)
    requires GroupsFiles(m, pairs)
    ensures GroupsFiles(r, pairs + [(name, f)]) && name in r
  {
    r := m[name := (if name in m then m[name] else []) + [f]];
    forall n ensures (n in r <==> Select(pairs + [(name, f)], n) != [])
                  && (n in r ==> r[n] == Select(pairs + [(name, f)], n)) {
      SelectSnoc(pairs, (name, f), n);
    }
  }

  // --- URL-encoded forms --------------------------------------------------------------

  /** The coerced pairs, or None when some value is refused. */
  function CoerceAll<V>(coerce: (string, string) -> Option<V>, pairs: seq<(string, string)>): Option<seq<(string, V)>> {
    if pairs == [] then Some([])
    else
      var last := pairs[|pairs| - 1];
      var front := CoerceAll(coerce, pairs[..|pairs| - 1]);
      if front.None? || coerce(last.0, last.1).None? then None
      else Some(front.value + [(last.0, coerce(last.0, last.1).value)])
  }

  lemma {:induction false} CoerceAllFailsWithAnyPrefix<V>(
    coerce: (string, string) -> Option<V>, pairs: seq<(string, string)>, n: nat)
    requires n <= |pairs| && CoerceAll(coerce, pairs[..n]).None?
    ensures CoerceAll(coerce, pairs).None?
  {
    if n == |pairs| {
      assert pairs[..n] == pairs;
    } else {
      assert pairs[..|pairs| - 1][..n] == pairs[..n];
      CoerceAllFailsWithAnyPrefix(coerce, pairs[..|pairs| - 1], n);
    }
  }

  /** `decoded` is the body split into pairs, or None when it is not URL-encoded. */
  method ParseUrlencoded<V>(coerce: (string, string) -> Option<V>, decoded: Option<seq<(string, string)>>)
    returns (r: Result<map<string, FormValue<V>>, ErrorType>)
    ensures decoded.None? ==> r == Err(ParseError)
    ensures decoded.Some? && CoerceAll(coerce, decoded.value).None? ==> r == Err(TypeError)
    ensures decoded.Some? && CoerceAll(coerce, decoded.value).Some? ==>
              r.Ok? && GroupsValues(r.value, CoerceAll(coerce, decoded.value).value)
  {
    if decoded.None? {
      return Err(ParseError);
    }
    var pairs := decoded.value;
    var m: map<string, FormValue<V>> := map[];
    ghost var done: seq<(string, V)> := [];
    for i := 0 to |pairs|
      invariant CoerceAll(coerce, pairs[..i]) == Some(done)
      invariant GroupsValues(m, done)
    {
      assert pairs[..i + 1][..i] == pairs[..i];
      var coerced := coerce(pairs[i].0, pairs[i].1);
      if coerced.None? {
        CoerceAllFailsWithAnyPrefix(coerce, pairs, i + 1);
        return Err(TypeError);
      }
      m := AddValue(m, done, pairs[i].0, coerced.value);
      done := done + [(pairs[i].0, coerced.value)];
    }
    assert pairs[..|pairs|] == pairs;
    return Ok(m);
  }

  // --- files --------------------------------------------------------------------------

  datatype FileContent = Memory(bytes: Bytes) | Disk(bytes: Bytes)

  datatype FileInfo = FileInfo(filename: string, content: FileContent, contentType: string, size: nat)

  datatype FileFieldConstraints = FileFieldConstraints(
    maxSize: Option<nat>,
    minSize: Option<nat>,
    allowedTypes: Option<seq<string>>,
    maxFiles: Option<nat>)

  /** The outcome for a file body: it depends on its bytes alone. */
  function FileOutcome(items: seq<StreamItem>, filename: string, contentType: string, maxSize: nat, memoryLimit: nat)
    : Result<FileInfo, ErrorType>
  {
    var bytes := Received(items);
    if |bytes| > maxSize then Err(FileTooLarge)
    else if Breaks(items) then Err(ReadFailed)
    else Ok(FileInfo(filename, if |bytes| > memoryLimit then Disk(bytes) else Memory(bytes), contentType, |bytes|))
  }

  /** Reads chunk by chunk, spooling to disk once the memory limit is passed. */
  method ReadFileContent(
    items: seq<StreamItem>, filename: string, contentType: string, maxSize: nat, memoryLimit: nat)
    returns (r: Result<FileInfo, ErrorType>)
    ensures r == FileOutcome(items, filename, contentType, maxSize, memoryLimit)
  {
    var size: nat := 0;
    var buffer: Bytes := [];
    var tempFile: Option<Bytes> := None;
    for i := 0 to |items|
      invariant !Breaks(items[..i])
      invariant size == |Received(items[..i])| <= maxSize
      invariant tempFile.None? ==> size <= memoryLimit && buffer == Received(items[..i])
      invariant tempFile.Some? ==> size > memoryLimit && tempFile.value == Received(items[..i])
    {
      ReceivedAt(items, i);
      if items[i].ReadError? {
        return Err(ReadFailed);
      }
      var data := items[i].bytes;
      size := size + |data|;
      if size > maxSize {
        return Err(FileTooLarge);
      }
      if tempFile.None? && size <= memoryLimit {
        buffer := buffer + data;
      } else {
        if tempFile.None? {
          tempFile := Some(buffer);
          buffer := [];
        }
        tempFile := Some(tempFile.value + data);
      }
    }
    assert items[..|items|] == items;
    var content := if tempFile.Some? then Disk(tempFile.value) else Memory(buffer);
    return Ok(FileInfo(filename, content, contentType, size));
  }

  predicate EndsWith(s: string, suffix: string) {
    |s| >= |suffix| && s[|s| - |suffix|..] == suffix
  }

  /** One allowed-type pattern: everything, a major type, or an exact type. */
  predicate PatternAllows(pattern: string, contentType: string) {
    || pattern == "*" || pattern == "*/*"
    || (if EndsWith(pattern, "/*") then pattern[..|pattern| - 1] <= contentType else pattern == contentType)
  }

  /** A pattern with a major type allows exactly the types of that major type, "*" and the pattern
      with two stars allow every type, and any other pattern allows itself alone. */
  lemma PatternsMean(major: string, pattern: string, contentType: string)
    requires major != "*"
    ensures PatternAllows(major + "/*", contentType) <==>
              |contentType| > |major| && contentType[..|major|] == major && contentType[|major|] == '/'
    ensures PatternAllows("*", contentType) && PatternAllows("*/*", contentType)
    ensures pattern != "*" && !EndsWith(pattern, "/*") ==> (PatternAllows(pattern, contentType) <==> contentType == pattern)
  {
    var p := major + "/*";
    assert p[|major|] == '/' && p[|p| - 1] == '*' && EndsWith(p, "/*");
    assert p[..|p| - 1] == major + "/";
    if |contentType| > |major| && contentType[..|major|] == major && contentType[|major|] == '/' {
      assert contentType[..|major| + 1] == major + "/";
    }
    if major + "/" <= contentType {
      assert contentType[..|major| + 1] == major + "/";
      assert contentType[..|major|] == (major + "/")[..|major|] == major && contentType[|major|] == (major + "/")[|major|];
    }
  }

  method IsContentTypeAllowed(contentType: string, allowed: seq<string>) returns (r: bool)
    ensures r <==> exists p :: p in allowed && PatternAllows(p, contentType)
  {
    for i := 0 to |allowed|
      invariant forall j :: 0 <= j < i ==> !PatternAllows(allowed[j], contentType)
    {
      var pattern := allowed[i];
      assert pattern in allowed;
      if pattern == "*" || pattern == "*/*" {
        assert PatternAllows(pattern, contentType);
        return true;
      }
      if EndsWith(pattern, "/*") {
        if pattern[..|pattern| - 1] <= contentType {
          assert PatternAllows(pattern, contentType);
          return true;
        }
      } else if pattern == contentType {
        assert PatternAllows(pattern, contentType);
        return true;
      }
    }
    return false;
  }

  predicate FitsMaxSize(f: FileInfo, c: FileFieldConstraints) {
    c.maxSize.Some? ==> f.size <= c.maxSize.value
  }

  predicate FitsMinSize(f: FileInfo, c: FileFieldConstraints) {
    c.minSize.Some? ==> c.minSize.value <= f.size
  }

  predicate HasAllowedType(f: FileInfo, c: FileFieldConstraints) {
    c.allowedTypes.Some? ==> exists p :: p in c.allowedTypes.value && PatternAllows(p, f.contentType)
  }

  predicate MeetsConstraints(f: FileInfo, c: FileFieldConstraints) {
    FitsMaxSize(f, c) && FitsMinSize(f, c) && HasAllowedType(f, c)
  }

  /** e names a constraint that fails, and those checked before it hold. */
  predicate IsFirstViolation(f: FileInfo, c: FileFieldConstraints, e: ErrorType) {
    match e
    case FileTooLarge => !FitsMaxSize(f, c)
    case FileTooSmall => FitsMaxSize(f, c) && !FitsMinSize(f, c)
    case InvalidContentType => FitsMaxSize(f, c) && FitsMinSize(f, c) && !HasAllowedType(f, c)
    case _ => false
  }

  /** A file is accepted exactly when size and type meet every constraint; otherwise the error
      names the first one that fails. */
  method ValidateFile(f: FileInfo, c: FileFieldConstraints) returns (r: Option<ErrorType>)
    ensures r.None? <==> MeetsConstraints(f, c)
    ensures r.None? <==>
              && (c.maxSize.None? || f.size <= c.maxSize.value)
              && (c.minSize.None? || f.size >= c.minSize.value)
              && (c.allowedTypes.None? || exists p :: p in c.allowedTypes.value && PatternAllows(p, f.contentType))
    ensures r.Some? ==> IsFirstViolation(f, c, r.value)
  {
    if c.maxSize.Some? && f.size > c.maxSize.value {
      return Some(FileTooLarge);
    }
    if c.minSize.Some? && f.size < c.minSize.value {
      return Some(FileTooSmall);
    }
    if c.allowedTypes.Some? {
      var allowed := IsContentTypeAllowed(f.contentType, c.allowedTypes.value);
      if !allowed {
        return Some(InvalidContentType);
      }
    }
    return None;
  }

  /** Only one error can be the first violation, and a file that meets the constraints has none. */
  lemma FirstViolationIsUnique(f: FileInfo, c: FileFieldConstraints, e1: ErrorType, e2: ErrorType)
    requires IsFirstViolation(f, c, e1) && IsFirstViolation(f, c, e2)
    ensures e1 == e2 && !MeetsConstraints(f, c)
  {
  }

  /** The error of a file that does not meet the constraints. */
  function Violation(f: FileInfo, c: FileFieldConstraints): (e: ErrorType)
    requires !MeetsConstraints(f, c)
    ensures IsFirstViolation(f, c, e)
  {
    if !FitsMaxSize(f, c) then FileTooLarge else if !FitsMinSize(f, c) then FileTooSmall else InvalidContentType
  }

  // --- multipart ------------------------------------------------------------------------

  datatype Disposition = Absent | Field(name: Option<string>) | File(name: Option<string>, filename: string)

  /** What the multipart reader hands over: a part, or an error in place of one. */
  datatype Incoming = Broken | Part(disposition: Disposition, contentType: Option<string>, items: seq<StreamItem>)

  datatype Config = Config(
    constraints: map<string, FileFieldConstraints>,
    maxUploadSize: nat,
    memoryLimit: nat,
    maxParts: nat,
    maxParamLength: nat)

  type Coercer<!V> = (string, Bytes) -> Option<V>

  /** A part taken by itself. */
  datatype Parsed<V> = Skipped | Value(name: string, value: V) | Upload(name: string, file: FileInfo) | Bad(error: ErrorType)

  function NameOf(name: Option<string>): string {
    if name.Some? then name.value else "unknown"
  }

  function ParsePart<V>(cfg: Config, coerce: Coercer<V>, p: Incoming): Parsed<V> {
    match p
    case Broken => Bad(MultipartError)
    case Part(Absent, _, _) => Skipped
    case Part(Field(n), _, items) =>
      var bytes := Received(items);
      if |bytes| > cfg.maxParamLength then Bad(TypeError)
      else if Breaks(items) then Bad(ReadFailed)
      else if coerce(NameOf(n), bytes).None? then Bad(TypeError)
      else Value(NameOf(n), coerce(NameOf(n), bytes).value)
    case Part(File(n, filename), ct, items) =>
      var contentType := if ct.Some? then ct.value else "application/octet-stream";
      var f := FileOutcome(items, filename, contentType, cfg.maxUploadSize, cfg.memoryLimit);
      if f.Err? then Bad(f.error)
      else if NameOf(n) in cfg.constraints && !MeetsConstraints(f.value, cfg.constraints[NameOf(n)]) then
        Bad(Violation(f.value, cfg.constraints[NameOf(n)]))
      else Upload(NameOf(n), f.value)
  }

  /** The uploads among the parts, in order. */
  function Uploads<V>(cfg: Config, coerce: Coercer<V>, parts: seq<Incoming>): seq<(string, FileInfo)> {
    if parts == [] then []
    else
      var p := ParsePart(cfg, coerce, parts[|parts| - 1]);
      var before := Uploads(cfg, coerce, parts[..|parts| - 1]);
      if p.Upload? then before + [(p.name, p.file)] else before
  }

  /** The plain fields among the parts, in order. */
  function Values<V>(cfg: Config, coerce: Coercer<V>, parts: seq<Incoming>): seq<(string, V)> {
    if parts == [] then []
    else
      var p := ParsePart(cfg, coerce, parts[|parts| - 1]);
      var before := Values(cfg, coerce, parts[..|parts| - 1]);
      if p.Value? then before + [(p.name, p.value)] else before
  }

  /** The error part i raises, given the parts before it. */
  function ErrorAt<V>(cfg: Config, coerce: Coercer<V>, parts: seq<Incoming>, i: nat): Option<ErrorType>
    requires i < |parts|
  {
    var p := ParsePart(cfg, coerce, parts[i]);
    if i + 1 > cfg.maxParts then Some(TooManyParts)
    else if p.Bad? then Some(p.error)
    else if p.Upload? && p.name in cfg.constraints && cfg.constraints[p.name].maxFiles.Some?
            && |Select(Uploads(cfg, coerce, parts[..i + 1]), p.name)| > cfg.constraints[p.name].maxFiles.value
    then Some(TooManyFiles)
    else None
  }

  datatype FormParseResult<V> = FormParseResult(
    formMap: map<string, FormValue<V>>, filesMap: map<string, seq<FileInfo>>)

  ghost predicate FirstError<V>(cfg: Config, coerce: Coercer<V>, parts: seq<Incoming>, i: nat, e: ErrorType) {
    && i < |parts|
    && ErrorAt(cfg, coerce, parts, i) == Some(e)
    && forall j :: 0 <= j < i ==> ErrorAt(cfg, coerce, parts, j).None?
  }

  /** What parsing must answer: the error of the first part that raises one, and
      otherwise the two maps that group the fields and the uploads. */
  ghost predicate IsResult<V>(
    cfg: Config, coerce: Coercer<V>, parts: seq<Incoming>, r: Result<FormParseResult<V>, ErrorType>)
  {
    match r
    case Err(e) => exists i: nat :: FirstError(cfg, coerce, parts, i, e)
    case Ok(f) =>
      && (forall j :: 0 <= j < |parts| ==> ErrorAt(cfg, coerce, parts, j).None?)
      && GroupsValues(f.formMap, Values(cfg, coerce, parts))
      && GroupsFiles(f.filesMap, Uploads(cfg, coerce, parts))
  }

  method ReadFieldValue<V>(cfg: Config, coerce: Coercer<V>, name: string, items: seq<StreamItem>)
    returns (r: Result<V, ErrorType>)
    ensures var p := ParsePart(cfg, coerce, Part(Field(Some(name)), None, items));
            r == if p.Bad? then Err(p.error) else Ok(p.value)
  {
    var valueBytes: Bytes := [];
    for i := 0 to |items|
      invariant !Breaks(items[..i])
      invariant valueBytes == Received(items[..i]) && |valueBytes| <= cfg.maxParamLength
    {
      ReceivedAt(items, i);
      if items[i].ReadError? {
        return Err(ReadFailed);
      }
      if |valueBytes| + |items[i].bytes| > cfg.maxParamLength {
        return Err(TypeError);
      }
      valueBytes := valueBytes + items[i].bytes;
    }
    assert items[..|items|] == items;
    var coerced := coerce(name, valueBytes);
    return if coerced.None? then Err(TypeError) else Ok(coerced.value);
  }

  /** One part of the loop, up to filing it in the maps. */
  method ReadPart<V>(cfg: Config, coerce: Coercer<V>, p: Incoming) returns (r: Parsed<V>)
    ensures r == ParsePart(cfg, coerce, p)
  {
    match p {
      case Broken =>
        return Bad(MultipartError);
      case Part(Absent, _, _) =>
        return Skipped;
      case Part(File(n, filename), ct, items) =>
        var name := NameOf(n);
        var contentType := if ct.Some? then ct.value else "application/octet-stream";
        var info := ReadFileContent(items, filename, contentType, cfg.maxUploadSize, cfg.memoryLimit);
        if info.Err? {
          return Bad(info.error);
        }
        if name in cfg.constraints {
          var violation := ValidateFile(info.value, cfg.constraints[name]);
          if violation.Some? {
            FirstViolationIsUnique(
              info.value, cfg.constraints[name], violation.value, Violation(info.value, cfg.constraints[name]));
            return Bad(violation.value);
          }
        }
        return Upload(name, info.value);
      case Part(Field(n), _, items) =>
        var value := ReadFieldValue(cfg, coerce, NameOf(n), items);
        return if value.Err? then Bad(value.error) else Value(NameOf(n), value.value);
    }
  }

  lemma PrefixStep<V>(cfg: Config, coerce: Coercer<V>, parts: seq<Incoming>, i: nat)
    requires i < |parts|
    ensures var p, before := ParsePart(cfg, coerce, parts[i]), Uploads(cfg, coerce, parts[..i]);
            Uploads(cfg, coerce, parts[..i + 1]) == if p.Upload? then before + [(p.name, p.file)] else before
    ensures var p, before := ParsePart(cfg, coerce, parts[i]), Values(cfg, coerce, parts[..i]);
            Values(cfg, coerce, parts[..i + 1]) == if p.Value? then before + [(p.name, p.value)] else before
  {
    assert parts[..i + 1][..i] == parts[..i] && parts[..i + 1][i] == parts[i];
  }

  method ParseMultipart<V>(cfg: Config, coerce: Coercer<V>, parts: seq<Incoming>)
    returns (r: Result<FormParseResult<V>, ErrorType>)
    ensures IsResult(cfg, coerce, parts, r)
  {
    var formMap: map<string, FormValue<V>> := map[];
    var filesMap: map<string, seq<FileInfo>> := map[];
    for i := 0 to |parts|
      invariant forall j :: 0 <= j < i ==> ErrorAt(cfg, coerce, parts, j).None?
      invariant GroupsValues(formMap, Values(cfg, coerce, parts[..i]))
      invariant GroupsFiles(filesMap, Uploads(cfg, coerce, parts[..i]))
    {
      PrefixStep(cfg, coerce, parts, i);
      if i + 1 > cfg.maxParts {
        assert FirstError(cfg, coerce, parts, i, TooManyParts);
        return Err(TooManyParts);
      }
      var part := ReadPart(cfg, coerce, parts[i]);
      match part {
        case Bad(e) =>
          assert FirstError(cfg, coerce, parts, i, e);
          return Err(e);
        case Skipped =>
        case Upload(name, file) =>
          filesMap := AddFile(filesMap, Uploads(cfg, coerce, parts[..i]), name, file);
          if name in cfg.constraints && cfg.constraints[name].maxFiles.Some?
             && |filesMap[name]| > cfg.constraints[name].maxFiles.value {
            assert FirstError(cfg, coerce, parts, i, TooManyFiles);
            return Err(TooManyFiles);
          }
        case Value(name, value) =>
          formMap := AddValue(formMap, Values(cfg, coerce, parts[..i]), name, value);
      }
    }
    assert parts[..|parts|] == parts;
    return Ok(FormParseResult(formMap, filesMap));
  }

  // --- chunking does not matter ------------------------------------------------------------

  /** The same part cut into different chunks. */
  predicate SameBytes(p: Incoming, q: Incoming) {
    if p.Broken? || q.Broken? then p == q
    else p.disposition == q.disposition && p.contentType == q.contentType
         && Received(p.items) == Received(q.items) && (Breaks(p.items) <==> Breaks(q.items))
  }

  ghost predicate SameParts(ps: seq<Incoming>, qs: seq<Incoming>) {
    |ps| == |qs| && forall i :: 0 <= i < |ps| ==> SameBytes(ps[i], qs[i])
  }

  lemma {:induction false} SamePartsSameLists<V>(cfg: Config, coerce: Coercer<V>, ps: seq<Incoming>, qs: seq<Incoming>)
    requires SameParts(ps, qs)
    ensures Uploads(cfg, coerce, ps) == Uploads(cfg, coerce, qs)
    ensures Values(cfg, coerce, ps) == Values(cfg, coerce, qs)
  {
    if ps != [] {
      var n := |ps| - 1;
      SamePartsSameLists(cfg, coerce, ps[..n], qs[..n]);
      assert SameBytes(ps[n], qs[n]);
      assert ParsePart(cfg, coerce, ps[n]) == ParsePart(cfg, coerce, qs[n]);
    }
  }

  lemma SamePartsSameErrors<V>(cfg: Config, coerce: Coercer<V>, ps: seq<Incoming>, qs: seq<Incoming>, i: nat)
    requires SameParts(ps, qs) && i < |ps|
    ensures ErrorAt(cfg, coerce, ps, i) == ErrorAt(cfg, coerce, qs, i)
  {
    SamePartsSameLists(cfg, coerce, ps[..i + 1], qs[..i + 1]);
    assert SameBytes(ps[i], qs[i]);
    assert ParsePart(cfg, coerce, ps[i]) == ParsePart(cfg, coerce, qs[i]);
  }

  /** Main result: however the part bodies are cut into chunks, the answer is the same
      maps or the same error type. */
  lemma ChunkingDoesNotMatter<V>(
    cfg: Config, coerce: Coercer<V>, ps: seq<Incoming>, qs: seq<Incoming>,
    r1: Result<FormParseResult<V>, ErrorType>, r2: Result<FormParseResult<V>, ErrorType>)
    requires SameParts(ps, qs) && IsResult(cfg, coerce, ps, r1) && IsResult(cfg, coerce, qs, r2)
    ensures r1 == r2
  {
    forall i | 0 <= i < |ps| ensures ErrorAt(cfg, coerce, ps, i) == ErrorAt(cfg, coerce, qs, i) {
      SamePartsSameErrors(cfg, coerce, ps, qs, i);
    }
    SamePartsSameLists(cfg, coerce, ps, qs);
    if r1.Ok? && r2.Ok? {
      GroupingIsUnique(r1.value.formMap, r2.value.formMap, Values(cfg, coerce, ps));
      assert r1.value.filesMap == r2.value.filesMap;
    }
  }

  // --- what a form holds, said of its parts alone ------------------------------------------

  /** A part without a name is called "unknown". */
  predicate Named(own: Option<string>, name: string) {
    own == Some(name) || (own.None? && name == "unknown")
  }

  predicate IsFieldOf(p: Incoming, name: string) {
    p.Part? && p.disposition.Field? && Named(p.disposition.name, name)
  }

  predicate IsFileOf(p: Incoming, name: string) {
    p.Part? && p.disposition.File? && Named(p.disposition.name, name)
  }

  /** What coercion makes of the whole bodies of the fields of one name, in order. */
  function CoercedOf<V>(coerce: Coercer<V>, parts: seq<Incoming>, name: string): seq<Option<V>> {
    if parts == [] then []
    else
      var p := parts[|parts| - 1];
      var before := CoercedOf(coerce, parts[..|parts| - 1], name);
      if IsFieldOf(p, name) then before + [coerce(name, Received(p.items))] else before
  }

  /** The whole body of a file part, on disk exactly when it is larger than the memory limit. */
  function WholeFile(cfg: Config, p: Incoming): FileInfo
    requires p.Part? && p.disposition.File?
  {
    var bytes := Received(p.items);
    FileInfo(p.disposition.filename,
             if |bytes| <= cfg.memoryLimit then Memory(bytes) else Disk(bytes),
             if p.contentType.None? then "application/octet-stream" else p.contentType.value,
             |bytes|)
  }

  /** The files of one name, in order. */
  function FilesNamed(cfg: Config, parts: seq<Incoming>, name: string): seq<FileInfo> {
    if parts == [] then []
    else
      var p := parts[|parts| - 1];
      var before := FilesNamed(cfg, parts[..|parts| - 1], name);
      if IsFileOf(p, name) then before + [WholeFile(cfg, p)] else before
  }

  /** The part arrives whole, within its limit, and is accepted by itself. */
  ghost predicate PartIsFine<V>(cfg: Config, coerce: Coercer<V>, p: Incoming) {
    && p.Part?
    && (!p.disposition.Absent? ==> !Breaks(p.items))
    && (p.disposition.Field? ==> |Received(p.items)| <= cfg.maxParamLength)
    && (p.disposition.File? ==> |Received(p.items)| <= cfg.maxUploadSize)
    && (forall name :: IsFieldOf(p, name) ==> coerce(name, Received(p.items)).Some?)
    && (forall name :: IsFileOf(p, name) && name in cfg.constraints ==>
          MeetsConstraints(WholeFile(cfg, p), cfg.constraints[name]))
  }

  ghost predicate FewEnoughFiles(cfg: Config, parts: seq<Incoming>, name: string) {
    name in cfg.constraints && cfg.constraints[name].maxFiles.Some? ==>
      |FilesNamed(cfg, parts, name)| <= cfg.constraints[name].maxFiles.value
  }

  ghost predicate Acceptable<V>(cfg: Config, coerce: Coercer<V>, parts: seq<Incoming>) {
    && |parts| <= cfg.maxParts
    && (forall i :: 0 <= i < |parts| ==> PartIsFine(cfg, coerce, parts[i]))
    && forall name :: FewEnoughFiles(cfg, parts, name)
  }

  /** What is wrong with a part by itself; size comes before a broken read, and both before
      coercion and constraints. */
  ghost predicate PartFault<V>(cfg: Config, coerce: Coercer<V>, p: Incoming, e: ErrorType) {
    match p
    case Broken => e == MultipartError
    case Part(Absent, _, _) => false
    case Part(Field(own), _, items) =>
      if |Received(items)| > cfg.maxParamLength then e == TypeError
      else if Breaks(items) then e == ReadFailed
      else e == TypeError && forall name :: Named(own, name) ==> coerce(name, Received(items)).None?
    case Part(File(own, _), _, items) =>
      if |Received(items)| > cfg.maxUploadSize then e == FileTooLarge
      else if Breaks(items) then e == ReadFailed
      else exists name :: Named(own, name) && name in cfg.constraints
                          && IsFirstViolation(WholeFile(cfg, p), cfg.constraints[name], e)
  }

  /** What is wrong with part i when the parts before it are acceptable. */
  ghost predicate Fault<V>(cfg: Config, coerce: Coercer<V>, parts: seq<Incoming>, i: nat, e: ErrorType)
    requires i < |parts|
  {
    if i >= cfg.maxParts then e == TooManyParts
    else if PartIsFine(cfg, coerce, parts[i]) then
      e == TooManyFiles && exists name :: IsFileOf(parts[i], name) && !FewEnoughFiles(cfg, parts[..i + 1], name)
    else PartFault(cfg, coerce, parts[i], e)
  }

  /** The parser's view of a part agrees with the declarative one. */
  lemma PartIsJudged<V>(cfg: Config, coerce: Coercer<V>, p: Incoming)
    ensures var r := ParsePart(cfg, coerce, p);
            && (r.Bad? <==> !PartIsFine(cfg, coerce, p))
            && (r.Bad? ==> PartFault(cfg, coerce, p, r.error))
            && (r.Value? <==> PartIsFine(cfg, coerce, p) && p.disposition.Field?)
            && (r.Value? ==> IsFieldOf(p, r.name) && coerce(r.name, Received(p.items)) == Some(r.value))
            && (r.Upload? <==> PartIsFine(cfg, coerce, p) && p.disposition.File?)
            && (r.Upload? ==> IsFileOf(p, r.name) && r.file == WholeFile(cfg, p))
  {
  }

  /** The values are what coercion made, none of them refused. */
  predicate Matches<V(==)>(values: seq<V>, coerced: seq<Option<V>>) {
    |values| == |coerced| && forall i :: 0 <= i < |values| ==> coerced[i] == Some(values[i])
  }

  lemma {:induction false} ListsAreJudged<V>(cfg: Config, coerce: Coercer<V>, parts: seq<Incoming>, name: string)
    requires forall i :: 0 <= i < |parts| ==> PartIsFine(cfg, coerce, parts[i])
    ensures Matches(Select(Values(cfg, coerce, parts), name), CoercedOf(coerce, parts, name))
    ensures Select(Uploads(cfg, coerce, parts), name) == FilesNamed(cfg, parts, name)
  {
    if parts != [] {
      var n := |parts| - 1;
      ListsAreJudged(cfg, coerce, parts[..n], name);
      PartIsJudged(cfg, coerce, parts[n]);
      var p := ParsePart(cfg, coerce, parts[n]);
      if p.Value? { SelectSnoc(Values(cfg, coerce, parts[..n]), (p.name, p.value), name); }
      if p.Upload? { SelectSnoc(Uploads(cfg, coerce, parts[..n]), (p.name, p.file), name); }
    }
  }

  /** One part more is acceptable exactly when the parser raises no error at it. */
  lemma AcceptableStep<V>(cfg: Config, coerce: Coercer<V>, parts: seq<Incoming>, i: nat)
    requires i < |parts| && Acceptable(cfg, coerce, parts[..i])
    ensures ErrorAt(cfg, coerce, parts, i).None? <==> Acceptable(cfg, coerce, parts[..i + 1])
    ensures ErrorAt(cfg, coerce, parts, i).Some? ==> Fault(cfg, coerce, parts, i, ErrorAt(cfg, coerce, parts, i).value)
  {
    PartIsJudged(cfg, coerce, parts[i]);
    var more := parts[..i + 1];
    assert more[..i] == parts[..i] && more[i] == parts[i];
    if i < cfg.maxParts && PartIsFine(cfg, coerce, parts[i]) {
      forall j | 0 <= j < |more| ensures PartIsFine(cfg, coerce, more[j]) {
        if j < i { assert parts[..i][j] == more[j]; }
      }
      forall name | !IsFileOf(parts[i], name) ensures FewEnoughFiles(cfg, more, name) {
        assert FewEnoughFiles(cfg, parts[..i], name);
      }
      var p := ParsePart(cfg, coerce, parts[i]);
      if p.Upload? {
        ListsAreJudged(cfg, coerce, more, p.name);
        assert ErrorAt(cfg, coerce, parts, i).None? <==> FewEnoughFiles(cfg, more, p.name);
      }
    }
  }

  lemma {:induction false} NoErrorMeansAcceptable<V>(cfg: Config, coerce: Coercer<V>, parts: seq<Incoming>, n: nat)
    requires n <= |parts| && forall j :: 0 <= j < n ==> ErrorAt(cfg, coerce, parts, j).None?
    ensures Acceptable(cfg, coerce, parts[..n])
  {
    if n > 0 {
      NoErrorMeansAcceptable(cfg, coerce, parts, n - 1);
      AcceptableStep(cfg, coerce, parts, n - 1);
    }
  }

  /** Main result: parsing raises the fault of the first part behind an acceptable front, and
      without one the parts are acceptable as a whole. */
  lemma ErrorNamesTheFirstFault<V>(
    cfg: Config, coerce: Coercer<V>, parts: seq<Incoming>, r: Result<FormParseResult<V>, ErrorType>)
    requires IsResult(cfg, coerce, parts, r)
    ensures r.Ok? ==> Acceptable(cfg, coerce, parts)
    ensures r.Err? ==> exists i: nat :: i < |parts| && Acceptable(cfg, coerce, parts[..i])
                                        && !Acceptable(cfg, coerce, parts[..i + 1]) && Fault(cfg, coerce, parts, i, r.error)
  {
    if r.Ok? {
      assert parts[..|parts|] == parts;
      NoErrorMeansAcceptable(cfg, coerce, parts, |parts|);
    } else {
      var i: nat :| FirstError(cfg, coerce, parts, i, r.error);
      NoErrorMeansAcceptable(cfg, coerce, parts, i);
      AcceptableStep(cfg, coerce, parts, i);
    }
  }

  /** Fewer parts hold fewer files. */
  lemma {:induction false} FilesOfFront(cfg: Config, parts: seq<Incoming>, n: nat, name: string)
    requires n <= |parts|
    ensures |FilesNamed(cfg, parts[..n], name)| <= |FilesNamed(cfg, parts, name)|
  {
    if n == |parts| {
      assert parts[..n] == parts;
    } else {
      assert parts[..|parts| - 1][..n] == parts[..n];
      FilesOfFront(cfg, parts[..|parts| - 1], n, name);
    }
  }

  lemma FrontIsAcceptable<V>(cfg: Config, coerce: Coercer<V>, parts: seq<Incoming>, n: nat)
    requires n <= |parts| && Acceptable(cfg, coerce, parts)
    ensures Acceptable(cfg, coerce, parts[..n])
  {
    forall name ensures FewEnoughFiles(cfg, parts[..n], name) {
      FilesOfFront(cfg, parts, n, name);
      assert FewEnoughFiles(cfg, parts, name);
    }
  }

  /** Main result: parsing succeeds if and only if there are not too many parts, each is fine by
      itself, and no field has too many files. */
  lemma ParsingSucceedsIff<V>(
    cfg: Config, coerce: Coercer<V>, parts: seq<Incoming>, r: Result<FormParseResult<V>, ErrorType>)
    requires IsResult(cfg, coerce, parts, r)
    ensures r.Ok? <==> Acceptable(cfg, coerce, parts)
  {
    ErrorNamesTheFirstFault(cfg, coerce, parts, r);
    if r.Err? && Acceptable(cfg, coerce, parts) {
      var i: nat :| i < |parts| && !Acceptable(cfg, coerce, parts[..i + 1]);
      FrontIsAcceptable(cfg, coerce, parts, i + 1);
      assert false;
    }
  }

  /** A form value holds what coercion made of one or of several fields. */
  predicate Holds<V(==)>(v: FormValue<V>, coerced: seq<Option<V>>) {
    match v
    case Single(x) => coerced == [Some(x)]
    case Multi(xs) => |xs| >= 2 && Matches(xs, coerced)
  }

  /** Main result: after a successful parse every name holds exactly what coercion makes of the
      whole bodies of the fields of that name, in order, and exactly the files of that name. */
  lemma FormHoldsWhatWasSent<V>(cfg: Config, coerce: Coercer<V>, parts: seq<Incoming>, r: FormParseResult<V>, name: string)
    requires IsResult(cfg, coerce, parts, Ok(r))
    ensures name in r.formMap <==> exists i :: 0 <= i < |parts| && IsFieldOf(parts[i], name)
    ensures name in r.formMap ==> Holds(r.formMap[name], CoercedOf(coerce, parts, name))
    ensures name in r.filesMap <==> exists i :: 0 <= i < |parts| && IsFileOf(parts[i], name)
    ensures name in r.filesMap ==> r.filesMap[name] == FilesNamed(cfg, parts, name)
  {
    ErrorNamesTheFirstFault(cfg, coerce, parts, Ok(r));
    ListsAreJudged(cfg, coerce, parts, name);
    SomeAreNamed(cfg, coerce, parts, name);
  }

  lemma {:induction false} SomeAreNamed<V>(cfg: Config, coerce: Coercer<V>, parts: seq<Incoming>, name: string)
    ensures CoercedOf(coerce, parts, name) != [] <==> exists i :: 0 <= i < |parts| && IsFieldOf(parts[i], name)
    ensures FilesNamed(cfg, parts, name) != [] <==> exists i :: 0 <= i < |parts| && IsFileOf(parts[i], name)
  {
    if parts != [] {
      SomeAreNamed(cfg, coerce, parts[..|parts| - 1], name);
    }
  }

  // --- what a URL-encoded form holds -----------------------------------------------------------

  /** What coercion makes of the texts sent under one name, in order. */
  function CoercedPairs<V>(coerce: (string, string) -> Option<V>, pairs: seq<(string, string)>, name: string)
    : seq<Option<V>>
  {
    if pairs == [] then []
    else
      var last := pairs[|pairs| - 1];
      var before := CoercedPairs(coerce, pairs[..|pairs| - 1], name);
      if last.0 == name then before + [coerce(name, last.1)] else before
  }

  lemma {:induction false} PairsAreCoerced<V>(
    coerce: (string, string) -> Option<V>, pairs: seq<(string, string)>, name: string)
    ensures CoerceAll(coerce, pairs).Some? <==> forall i :: 0 <= i < |pairs| ==> coerce(pairs[i].0, pairs[i].1).Some?
    ensures CoerceAll(coerce, pairs).Some? ==>
              Matches(Select(CoerceAll(coerce, pairs).value, name), CoercedPairs(coerce, pairs, name))
    ensures CoercedPairs(coerce, pairs, name) != [] <==> exists i :: 0 <= i < |pairs| && pairs[i].0 == name
  {
    if pairs != [] {
      var n := |pairs| - 1;
      PairsAreCoerced(coerce, pairs[..n], name);
      var front := CoerceAll(coerce, pairs[..n]);
      var last := coerce(pairs[n].0, pairs[n].1);
      if front.Some? && last.Some? { SelectSnoc(front.value, (pairs[n].0, last.value), name); }
    }
  }

  /** Main result: a URL-encoded form is accepted if and only if coercion accepts every pair, and
      then each name holds exactly what coercion makes of the texts sent under it, in order. */
  lemma UrlencodedHoldsWhatWasSent<V>(
    coerce: (string, string) -> Option<V>, pairs: seq<(string, string)>, m: map<string, FormValue<V>>, name: string)
    requires CoerceAll(coerce, pairs).Some? ==> GroupsValues(m, CoerceAll(coerce, pairs).value)
    ensures CoerceAll(coerce, pairs).Some? <==> forall i :: 0 <= i < |pairs| ==> coerce(pairs[i].0, pairs[i].1).Some?
    ensures CoerceAll(coerce, pairs).Some? ==>
              && (name in m <==> exists i :: 0 <= i < |pairs| && pairs[i].0 == name)
              && (name in m ==> Holds(m[name], CoercedPairs(coerce, pairs, name)))
  {
    PairsAreCoerced(coerce, pairs, name);
  }

  // --- the limits hold -----------------------------------------------------------------------

  /** Every stored file is the whole body of some part, in memory or on disk as its size
      demands, within the upload limit and within its field's constraints. */
  ghost predicate StoredFaithfully(cfg: Config, parts: seq<Incoming>, name: string, f: FileInfo) {
    && f.size == |f.content.bytes| <= cfg.maxUploadSize
    && (f.content.Disk? <==> f.size > cfg.memoryLimit)
    && (name in cfg.constraints ==> MeetsConstraints(f, cfg.constraints[name]))
    && exists i :: 0 <= i < |parts| && parts[i].Part? && f.content.bytes == Received(parts[i].items) && !Breaks(parts[i].items)
  }

  lemma {:induction false} FileComesFromAPart(cfg: Config, parts: seq<Incoming>, name: string, f: FileInfo)
    requires f in FilesNamed(cfg, parts, name)
    ensures exists i :: 0 <= i < |parts| && IsFileOf(parts[i], name) && f == WholeFile(cfg, parts[i])
  {
    if parts != [] {
      var n := |parts| - 1;
      if f in FilesNamed(cfg, parts[..n], name) {
        FileComesFromAPart(cfg, parts[..n], name, f);
      } else {
        assert IsFileOf(parts[n], name);
      }
    }
  }

  /** Main result: a successful parse respects every limit. */
  lemma SuccessMeetsEveryLimit<V>(cfg: Config, coerce: Coercer<V>, parts: seq<Incoming>, r: FormParseResult<V>)
    requires IsResult(cfg, coerce, parts, Ok(r))
    ensures |parts| <= cfg.maxParts
    ensures forall name, f :: name in r.filesMap && f in r.filesMap[name] ==> StoredFaithfully(cfg, parts, name, f)
    ensures forall name :: name in r.filesMap && name in cfg.constraints && cfg.constraints[name].maxFiles.Some? ==>
              |r.filesMap[name]| <= cfg.constraints[name].maxFiles.value
  {
    ErrorNamesTheFirstFault(cfg, coerce, parts, Ok(r));
    forall name | name in r.filesMap
      ensures r.filesMap[name] == FilesNamed(cfg, parts, name) && FewEnoughFiles(cfg, parts, name)
    {
      FormHoldsWhatWasSent(cfg, coerce, parts, r, name);
    }
    forall name, f | name in r.filesMap && f in r.filesMap[name] ensures StoredFaithfully(cfg, parts, name, f) {
      FileComesFromAPart(cfg, parts, name, f);
      var i :| 0 <= i < |parts| && IsFileOf(parts[i], name) && f == WholeFile(cfg, parts[i]);
      assert PartIsFine(cfg, coerce, parts[i]);
    }
  }
}
