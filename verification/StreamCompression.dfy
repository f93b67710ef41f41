/**
 The per-chunk compression adapter for streamed responses
 (src/streaming_compression.rs).  The codec is arbitrary, subject to a decode
 law; the inner stream is an arbitrary script of poll results.
 */
module StreamCompression {
  import opened Common

  // --- an abstract codec ------------------------------------------------------------

  /** write compresses and flushes one chunk, finish emits the tail; None is an error.
      decode is what the client's decoder has surfaced after some bytes. */
  datatype Codec<!S> = Codec(
    build: Option<S>,
    write: (S, Bytes) -> Option<(S, Bytes)>,
    finish: S -> Option<Bytes>,
    decode: Bytes -> Bytes)

  /** The encoder state and the bytes emitted after writing the inputs in order. */
  function Feed<S>(c: Codec<S>, inputs: seq<Bytes>): Option<(S, Bytes)> {
    if inputs == [] then (if c.build.None? then None else Some((c.build.value, [])))
    else
      var n := |inputs| - 1;
      var before := Feed(c, inputs[..n]);
      if before.None? then None
      else
        var w := c.write(before.value.0, inputs[n]);
        if w.None? then None else Some((w.value.0, before.value.1 + w.value.1))
  }

  /** Flush law: after every write the bytes so far decode to the input so far.
      Finish law: the tail adds nothing to the decoded text. */
  ghost predicate Lawful<S(!new)>(c: Codec<S>) {
    forall inputs :: Feed(c, inputs).Some? ==>
      var (s, emitted) := Feed(c, inputs).value;
      && c.decode(emitted) == Flatten(inputs)
      && (c.finish(s).Some? ==> c.decode(emitted + c.finish(s).value) == Flatten(inputs))
  }

  // --- one poll --------------------------------------------------------------------------

  datatype InnerPoll = Pending | Chunk(bytes: Bytes) | Failed | End

  datatype Polled = NotReady | Yield(bytes: Bytes) | YieldError | Finished

  /** script is what the inner stream still has to answer (pending for ever after that);
      over says it has answered End or Failed; consumed is the input taken so far. */
  datatype Adapter<S> = Adapter(
    script: seq<InnerPoll>,
    over: bool,
    encoder: Option<S>,
    initError: bool,
    consumed: seq<Bytes>)

  function Init<S>(c: Codec<S>, script: seq<InnerPoll>): Adapter<S> {
    Adapter(script, false, c.build, c.build.None?, [])
  }

  /** The loop of `poll_next`. */
  function Advance<S>(c: Codec<S>, a: Adapter<S>): (Adapter<S>, Polled)
    requires a.encoder.Some?
    decreases |a.script|
  {
    if a.script == [] then (a, NotReady)
    else
      var b := a.(script := a.script[1..]);
      match a.script[0]
      case Pending => (b, NotReady)
      case Chunk(bytes) =>
        (match c.write(a.encoder.value, bytes)
         case None => (b.(encoder := None), YieldError)
         case Some((s, out)) =>
           var d := b.(encoder := Some(s), consumed := a.consumed + [bytes]);
           if out == [] then Advance(c, d) else (d, Yield(out)))
      case Failed => (b.(encoder := None, over := true), YieldError)
      case End =>
        var d := b.(encoder := None, over := true);
        (match c.finish(a.encoder.value)
         case None => (d, YieldError)
         case Some(tail) => (d, if tail == [] then Finished else Yield(tail)))
  }

  function PollNext<S>(c: Codec<S>, a: Adapter<S>): (Adapter<S>, Polled) {
    if a.initError then (a.(initError := false), YieldError)
    else if a.encoder.None? then (a, Finished)
    else Advance(c, a)
  }

  // --- n polls ------------------------------------------------------------------------------

  /** The adapter and the answers after n polls. */
  function Polls<S>(c: Codec<S>, a: Adapter<S>, n: nat): (Adapter<S>, seq<Polled>) {
    if n == 0 then (a, [])
    else
      var (b, answers) := Polls(c, a, n - 1);
      var (d, r) := PollNext(c, b);
      (d, answers + [r])
  }

  /** The compressed bytes among the answers. */
  function Emitted(answers: seq<Polled>): Bytes {
    if answers == [] then []
    else
      var n := |answers| - 1;
      if answers[n].Yield? then Emitted(answers[..n]) + answers[n].bytes else Emitted(answers[..n])
  }

  function ChunksOf(script: seq<InnerPoll>): seq<Bytes> {
    if script == [] then []
    else
      var n := |script| - 1;
      if script[n].Chunk? then ChunksOf(script[..n]) + [script[n].bytes] else ChunksOf(script[..n])
  }

  lemma EmittedSnoc(answers: seq<Polled>, r: Polled)
    ensures Emitted(answers + [r]) == if r.Yield? then Emitted(answers) + r.bytes else Emitted(answers)
  {
    assert (answers + [r])[..|answers|] == answers;
  }

  /** The part of the inner script that has been polled. */
  function Taken<S>(script: seq<InnerPoll>, a: Adapter<S>): seq<InnerPoll>
    requires |a.script| <= |script|
  {
    script[..|script| - |a.script|]
  }

  predicate Suffix<S>(script: seq<InnerPoll>, a: Adapter<S>) {
    |a.script| <= |script| && a.script == script[|script| - |a.script|..]
  }

  /** While the encoder is alive it has been fed exactly the chunks polled so far. */
  ghost predicate Alive<S>(c: Codec<S>, script: seq<InnerPoll>, a: Adapter<S>, emitted: Bytes) {
    && Suffix(script, a)
    && a.encoder.Some? && !a.initError && !a.over
    && Feed(c, a.consumed) == Some((a.encoder.value, emitted))
    && a.consumed == ChunksOf(Taken(script, a))
    && forall i :: 0 <= i < |Taken(script, a)| ==> Taken(script, a)[i].Pending? || Taken(script, a)[i].Chunk?
  }

  lemma TakenStep<S>(script: seq<InnerPoll>, a: Adapter<S>, b: Adapter<S>)
    requires Suffix(script, a) && a.script != [] && b.script == a.script[1..]
    ensures Suffix(script, b)
    ensures Taken(script, b) == Taken(script, a) + [a.script[0]]
    ensures ChunksOf(Taken(script, b)) == ChunksOf(Taken(script, a)) + (if a.script[0].Chunk? then [a.script[0].bytes] else [])
  {
    assert Taken(script, b)[..|Taken(script, a)|] == Taken(script, a);
  }

  // --- what a poll answers ------------------------------------------------------------------

  /** Compressing the polled items fails: the encoder cannot be built, some write or the final
      tail fails, or the inner stream does. */
  ghost predicate Fails<S>(c: Codec<S>, taken: seq<InnerPoll>) {
    var fed := Feed(c, ChunksOf(taken));
    fed.None? || Failed in taken || (End in taken && c.finish(fed.value.0).None?)
  }

  /** The encoder's output for the polled items, with its tail behind the last one. */
  ghost function Encoding<S>(c: Codec<S>, taken: seq<InnerPoll>): Bytes
    requires !Fails(c, taken)
  {
    var (s, out) := Feed(c, ChunksOf(taken)).value;
    if End in taken then out + c.finish(s).value else out
  }

  function Front(taken: seq<InnerPoll>): seq<InnerPoll> {
    if taken == [] then [] else taken[..|taken| - 1]
  }

  predicate LastIsPending(taken: seq<InnerPoll>) {
    taken != [] && taken[|taken| - 1].Pending?
  }

  predicate EndIsLast(taken: seq<InnerPoll>) {
    End in taken ==> taken[|taken| - 1].End? && End !in Front(taken)
  }

  /** A poll takes items up to the first that gives the client something, and sends what the
      encoder made of that one; it waits only when the inner stream does. */
  ghost predicate AnswersFor<S>(c: Codec<S>, script: seq<InnerPoll>, b: Adapter<S>, r: Polled, emitted: Bytes) {
    && Suffix(script, b) && !b.initError
    && var taken, now := Taken(script, b), emitted + (if r.Yield? then r.bytes else []);
    && (r.YieldError? <==> Fails(c, taken))
    && (!r.YieldError? ==> Encoding(c, taken) == now)
    && (r.Yield? ==> r.bytes != [] && !Fails(c, Front(taken)) && Encoding(c, Front(taken)) == emitted)
    && (r.NotReady? ==> b.script == [] || LastIsPending(taken))
    && (b.encoder.Some? ==> Alive(c, script, b, now))
    && (b.encoder.None? ==> !r.NotReady? && (!r.YieldError? ==> End in taken))
    && (r.Finished? ==> b.encoder.None?)
    && EndIsLast(taken)
  }

  lemma AliveEncoding<S>(c: Codec<S>, script: seq<InnerPoll>, a: Adapter<S>, emitted: Bytes)
    requires Alive(c, script, a, emitted)
    ensures Failed !in Taken(script, a) && End !in Taken(script, a)
    ensures !Fails(c, Taken(script, a)) && Encoding(c, Taken(script, a)) == emitted
  {
  }

  lemma ChunkIsWritten<S>(c: Codec<S>, script: seq<InnerPoll>, a: Adapter<S>, b: Adapter<S>, emitted: Bytes)
    requires Alive(c, script, a, emitted) && a.script != [] && a.script[0].Chunk? && b.script == a.script[1..]
    ensures Suffix(script, b) && Front(Taken(script, b)) == Taken(script, a)
    ensures var w, inputs := c.write(a.encoder.value, a.script[0].bytes), a.consumed + [a.script[0].bytes];
            && Feed(c, ChunksOf(Taken(script, b))) == (if w.None? then None else Some((w.value.0, emitted + w.value.1)))
            && (w.Some? && b == a.(script := b.script, encoder := Some(w.value.0), consumed := inputs) ==>
                  Alive(c, script, b, emitted + w.value.1))
  {
    TakenStep(script, a, b);
    var chunk := a.script[0].bytes;
    assert (a.consumed + [chunk])[..|a.consumed|] == a.consumed;
  }

  /** An item that is no chunk adds nothing to the encoding but the tail. */
  lemma OneMoreTaken<S>(c: Codec<S>, taken: seq<InnerPoll>, x: InnerPoll, more: seq<InnerPoll>, s: S, emitted: Bytes)
    requires Feed(c, ChunksOf(taken)) == Some((s, emitted)) && Failed !in taken && End !in taken
    requires !x.Chunk? && more == taken + [x]
    ensures Front(more) == taken && EndIsLast(more) && (x.Pending? ==> LastIsPending(more))
    ensures Feed(c, ChunksOf(more)) == Some((s, emitted))
    ensures Fails(c, more) <==> x.Failed? || (x.End? && c.finish(s).None?)
    ensures !Fails(c, more) ==> Encoding(c, more) == if x.End? then emitted + c.finish(s).value else emitted
    ensures Failed in more <==> x.Failed?
    ensures End in more <==> x.End?
  {
    assert more[..|more| - 1] == taken;
    assert ChunksOf(more) == ChunksOf(taken);
  }

  lemma WaitIsAnswered<S>(c: Codec<S>, script: seq<InnerPoll>, a: Adapter<S>, b: Adapter<S>, emitted: Bytes)
    requires Alive(c, script, a, emitted) && a.script != [] && a.script[0].Pending? && b == a.(script := a.script[1..])
    ensures AnswersFor(c, script, b, NotReady, emitted)
  {
    TakenStep(script, a, b);
    AliveEncoding(c, script, a, emitted);
    OneMoreTaken(c, Taken(script, a), a.script[0], Taken(script, b), a.encoder.value, emitted);
    assert emitted + [] == emitted;
  }

  lemma FailureIsAnswered<S>(c: Codec<S>, script: seq<InnerPoll>, a: Adapter<S>, b: Adapter<S>, emitted: Bytes)
    requires Alive(c, script, a, emitted) && a.script != [] && a.script[0].Failed?
    requires b == a.(script := a.script[1..], encoder := None, over := true)
    ensures AnswersFor(c, script, b, YieldError, emitted)
  {
    TakenStep(script, a, b);
    AliveEncoding(c, script, a, emitted);
    OneMoreTaken(c, Taken(script, a), a.script[0], Taken(script, b), a.encoder.value, emitted);
  }

  lemma EndIsAnswered<S>(
    c: Codec<S>, script: seq<InnerPoll>, a: Adapter<S>, b: Adapter<S>, tail: Option<Bytes>, r: Polled, emitted: Bytes)
    requires Alive(c, script, a, emitted) && a.script != [] && a.script[0].End?
    requires b == a.(script := a.script[1..], encoder := None, over := true) && tail == c.finish(a.encoder.value)
    requires r == if tail.None? then YieldError else if tail.value == [] then Finished else Yield(tail.value)
    ensures AnswersFor(c, script, b, r, emitted)
  {
    TakenStep(script, a, b);
    AliveEncoding(c, script, a, emitted);
    OneMoreTaken(c, Taken(script, a), a.script[0], Taken(script, b), a.encoder.value, emitted);
    assert emitted + [] == emitted;
  }

  lemma WriteIsAnswered<S>(
    c: Codec<S>, script: seq<InnerPoll>, a: Adapter<S>, d: Adapter<S>, s: S, out: Bytes, emitted: Bytes)
    requires Alive(c, script, a, emitted) && a.script != [] && a.script[0].Chunk?
    requires c.write(a.encoder.value, a.script[0].bytes) == Some((s, out))
    requires d == a.(script := a.script[1..], encoder := Some(s), consumed := a.consumed + [a.script[0].bytes])
    ensures Alive(c, script, d, emitted + out)
    ensures out != [] ==> AnswersFor(c, script, d, Yield(out), emitted)
  {
    ChunkIsWritten(c, script, a, d, emitted);
    TakenStep(script, a, d);
    AliveEncoding(c, script, a, emitted);
    AliveEncoding(c, script, d, emitted + out);
  }

  lemma FailedWriteIsAnswered<S>(c: Codec<S>, script: seq<InnerPoll>, a: Adapter<S>, b: Adapter<S>, emitted: Bytes)
    requires Alive(c, script, a, emitted) && a.script != [] && a.script[0].Chunk?
    requires c.write(a.encoder.value, a.script[0].bytes).None? && b == a.(script := a.script[1..], encoder := None)
    ensures AnswersFor(c, script, b, YieldError, emitted)
  {
    ChunkIsWritten(c, script, a, b, emitted);
    TakenStep(script, a, b);
    AliveEncoding(c, script, a, emitted);
    assert Taken(script, b) == Taken(script, a) + [a.script[0]];
  }

  lemma NothingIsAnswered<S>(c: Codec<S>, script: seq<InnerPoll>, a: Adapter<S>, emitted: Bytes)
    requires Alive(c, script, a, emitted) && a.script == []
    ensures AnswersFor(c, script, a, NotReady, emitted)
  {
    AliveEncoding(c, script, a, emitted);
    assert emitted + [] == emitted;
  }

  /** One poll of a living adapter. */
  lemma {:induction false} AdvanceAnswersFor<S>(
    c: Codec<S>, script: seq<InnerPoll>, a: Adapter<S>, emitted: Bytes, b: Adapter<S>, r: Polled)
    requires Alive(c, script, a, emitted) && (b, r) == Advance(c, a)
    ensures AnswersFor(c, script, b, r, emitted)
    decreases |a.script|
  {
    if a.script == [] {
      NothingIsAnswered(c, script, a, emitted);
    } else if a.script[0].Pending? {
      WaitIsAnswered(c, script, a, b, emitted);
    } else if a.script[0].Failed? {
      FailureIsAnswered(c, script, a, b, emitted);
    } else if a.script[0].End? {
      EndIsAnswered(c, script, a, b, c.finish(a.encoder.value), r, emitted);
    } else {
      var w := c.write(a.encoder.value, a.script[0].bytes);
      if w.None? {
        FailedWriteIsAnswered(c, script, a, b, emitted);
      } else {
        var (s, out) := w.value;
        var d := a.(script := a.script[1..], encoder := Some(s), consumed := a.consumed + [a.script[0].bytes]);
        WriteIsAnswered(c, script, a, d, s, out, emitted);
        if out == [] {
          assert emitted + [] == emitted;
          AdvanceAnswersFor(c, script, d, emitted, b, r);
        }
      }
    }
  }

  /** The state after n polls, together with the answers so far. */
  ghost predicate Answered<S>(c: Codec<S>, script: seq<InnerPoll>, a: Adapter<S>, answers: seq<Polled>) {
    && Suffix(script, a)
    && var taken := Taken(script, a);
    && (YieldError in answers ==> Fails(c, taken) && Dead(a))
    && (YieldError !in answers && !a.initError ==> !Fails(c, taken) && Encoding(c, taken) == Emitted(answers))
    && (a.encoder.Some? ==> Alive(c, script, a, Emitted(answers)) && YieldError !in answers && Finished !in answers)
    && (a.encoder.None? && YieldError !in answers && !a.initError ==> End in taken)
    && (a.initError ==> a.encoder.None? && answers == [] && taken == [] && c.build.None?)
    && EndIsLast(taken)
  }

  lemma OneMoreAnswer(before: seq<Polled>, r: Polled, answers: seq<Polled>)
    requires answers == before + [r]
    ensures Emitted(answers) == if r.Yield? then Emitted(before) + r.bytes else Emitted(before)
    ensures YieldError in answers <==> YieldError in before || r.YieldError?
    ensures Finished in answers <==> Finished in before || r.Finished?
  {
    EmittedSnoc(before, r);
  }

  lemma LivingStep<S>(
    c: Codec<S>, script: seq<InnerPoll>, b: Adapter<S>, before: seq<Polled>, a: Adapter<S>, r: Polled, answers: seq<Polled>)
    requires Answered(c, script, b, before) && b.encoder.Some? && answers == before + [r]
    requires AnswersFor(c, script, a, r, Emitted(before))
    ensures Answered(c, script, a, answers)
  {
    OneMoreAnswer(before, r, answers);
    assert Emitted(before) + [] == Emitted(before);
  }

  lemma DeadStep<S>(
    c: Codec<S>, script: seq<InnerPoll>, b: Adapter<S>, before: seq<Polled>, a: Adapter<S>, r: Polled, answers: seq<Polled>)
    requires Answered(c, script, b, before) && b.encoder.None? && answers == before + [r]
    requires (a, r) == PollNext(c, b)
    ensures Answered(c, script, a, answers)
  {
    OneMoreAnswer(before, r, answers);
  }

  lemma {:induction false} PollsAreAnswered<S>(c: Codec<S>, script: seq<InnerPoll>, n: nat)
    ensures var (a, answers) := Polls(c, Init(c, script), n);
            |answers| == n && Answered(c, script, a, answers)
  {
    if n > 0 {
      PollsAreAnswered(c, script, n - 1);
      var (b, before) := Polls(c, Init(c, script), n - 1);
      var (a, r) := PollNext(c, b);
      if b.encoder.Some? {
        AdvanceAnswersFor(c, script, b, Emitted(before), a, r);
        LivingStep(c, script, b, before, a, r, before + [r]);
      } else {
        DeadStep(c, script, b, before, a, r, before + [r]);
      }
    } else {
      NoPollsAnswered(c, script, Init(c, script));
    }
  }

  lemma NoPollsAnswered<S>(c: Codec<S>, script: seq<InnerPoll>, a: Adapter<S>)
    requires a == Init(c, script)
    ensures Answered(c, script, a, [])
  {
    assert Taken(script, a) == [];
  }

  // --- main results ----------------------------------------------------------------------------

  lemma {:induction false} PollsPrefix<S>(c: Codec<S>, a: Adapter<S>, m: nat, n: nat)
    requires m <= n
    ensures |Polls(c, a, n).1| == n && Polls(c, a, n).1[..m] == Polls(c, a, m).1
    decreases n
  {
    if m < n {
      PollsPrefix(c, a, m, n - 1);
      PollsPrefix(c, a, n - 1, n - 1);
    } else if n > 0 {
      PollsPrefix(c, a, n - 1, n - 1);
    }
  }

  /** Main result: whatever the codec does, an error is answered if and only if compressing the
      polled items fails; otherwise the bytes sent are exactly the encoder's output for them, and
      with its tail once the inner stream has ended. */
  lemma SentBytesAreTheEncoding<S>(c: Codec<S>, script: seq<InnerPoll>, n: nat)
    requires n > 0
    ensures var (a, answers) := Polls(c, Init(c, script), n);
            && |a.script| <= |script|
            && var taken := Taken(script, a);
            && (YieldError in answers <==> Fails(c, taken))
            && (YieldError !in answers ==> Emitted(answers) == Encoding(c, taken))
            && (Finished in answers && YieldError !in answers ==> taken != [] && taken[|taken| - 1].End?)
  {
    PollsAreAnswered(c, script, n);
    PollsAreAnswered(c, script, n - 1);
    var (b, before) := Polls(c, Init(c, script), n - 1);
    if b.initError { assert PollNext(c, b).1.YieldError?; }
  }

  /** Each poll sends what the encoder made of the last item it took and nothing else, and it
      answers that it has to wait only when the inner stream does. */
  lemma EveryPollIsPrompt<S>(c: Codec<S>, script: seq<InnerPoll>, n: nat)
    requires n > 0 && |Polls(c, Init(c, script), n).1| == n
    ensures var (a, answers) := Polls(c, Init(c, script), n);
            var (r, before) := (answers[n - 1], answers[..n - 1]);
            && |a.script| <= |script|
            && var taken := Taken(script, a);
            && (r.Yield? ==> r.bytes != [] && !Fails(c, Front(taken)) && Encoding(c, Front(taken)) == Emitted(before))
            && (r.NotReady? ==> a.script == [] || LastIsPending(taken))
  {
    PollsAreAnswered(c, script, n - 1);
    var (b, before) := Polls(c, Init(c, script), n - 1);
    var (a, r) := PollNext(c, b);
    assert (before + [r])[..n - 1] == before;
    if b.encoder.Some? { AdvanceAnswersFor(c, script, b, Emitted(before), a, r); }
  }

  /** With a lawful codec the encoding decodes to its input. */
  lemma EncodingDecodes<S(!new)>(c: Codec<S>, taken: seq<InnerPoll>)
    requires Lawful(c) && !Fails(c, taken)
    ensures c.decode(Encoding(c, taken)) == Flatten(ChunksOf(taken))
  {
  }

  /** For every script and number of polls: no empty chunk is yielded, and after each
      yielded chunk the bytes emitted so far decode to exactly the chunks polled so far. */
  lemma EveryYieldDecodesToTheInputSoFar<S(!new)>(c: Codec<S>, script: seq<InnerPoll>, n: nat, i: nat)
    requires Lawful(c) && i < n && |Polls(c, Init(c, script), n).1| == n
    requires Polls(c, Init(c, script), n).1[i].Yield?
    ensures var answers := Polls(c, Init(c, script), n).1;
            var a := Polls(c, Init(c, script), i + 1).0;
            && answers[i].bytes != []
            && |a.script| <= |script|
            && c.decode(Emitted(answers[..i + 1])) == Flatten(ChunksOf(Taken(script, a)))
  {
    PollsPrefix(c, Init(c, script), i + 1, n);
    YieldDecodes(c, script, i + 1);
  }

  lemma YieldDecodes<S(!new)>(c: Codec<S>, script: seq<InnerPoll>, n: nat)
    requires Lawful(c) && n > 0 && |Polls(c, Init(c, script), n).1| == n && Polls(c, Init(c, script), n).1[n - 1].Yield?
    ensures var (a, answers) := Polls(c, Init(c, script), n);
            && answers[n - 1].bytes != []
            && |a.script| <= |script|
            && c.decode(Emitted(answers)) == Flatten(ChunksOf(Taken(script, a)))
  {
    EveryPollIsPrompt(c, script, n);
    PollsAreAnswered(c, script, n - 1);
    PollsAreAnswered(c, script, n);
    SentBytesAreTheEncoding(c, script, n);
    EncodingDecodes(c, Taken(script, Polls(c, Init(c, script), n).0));
  }

  /** The stream is over for the client. */
  predicate Dead<S>(a: Adapter<S>) {
    a.encoder.None? && !a.initError
  }

  /** An ended adapter stays ended and never polls the inner stream again. */
  lemma {:induction false} EndedStaysEnded<S>(c: Codec<S>, a: Adapter<S>, n: nat)
    requires Dead(a)
    ensures Polls(c, a, n).0 == a
    ensures |Polls(c, a, n).1| == n && forall i :: 0 <= i < n ==> Polls(c, a, n).1[i].Finished?
  {
    if n > 0 { EndedStaysEnded(c, a, n - 1); }
  }

  /** Any error, the end of the body and the end or failure of the inner stream all end
      the adapter, so by the previous lemma the inner stream is never polled after it
      has ended or failed. */
  lemma {:induction false} EveryEndingEndsTheAdapter<S>(c: Codec<S>, a: Adapter<S>)
    requires a.over ==> Dead(a)
    requires a.initError ==> a.encoder.None?
    ensures var (b, r) := PollNext(c, a);
            && (r.YieldError? || r.Finished? || b.over ==> Dead(b))
            && (r.NotReady? ==> !b.over && b.encoder.Some?)
    decreases |a.script|
  {
    if !a.initError && a.encoder.Some? && a.script != [] && a.script[0].Chunk? {
      var w := c.write(a.encoder.value, a.script[0].bytes);
      if w.Some? && w.value.1 == [] {
        EveryEndingEndsTheAdapter(c, a.(script := a.script[1..], encoder := Some(w.value.0),
                                        consumed := a.consumed + [a.script[0].bytes]));
      }
    }
  }

  /** A body that ends without an error decodes to the whole inner stream. */
  lemma CompleteBodyDecodesToTheWholeInput<S(!new)>(c: Codec<S>, script: seq<InnerPoll>, n: nat)
    requires Lawful(c)
    requires Finished in Polls(c, Init(c, script), n).1 && YieldError !in Polls(c, Init(c, script), n).1
    ensures var (a, answers) := Polls(c, Init(c, script), n);
            && |a.script| < |script|
            && Taken(script, a)[|Taken(script, a)| - 1] == End
            && c.decode(Emitted(answers)) == Flatten(ChunksOf(Taken(script, a)))
  {
    SentBytesAreTheEncoding(c, script, n);
    EncodingDecodes(c, Taken(script, Polls(c, Init(c, script), n).0));
  }

  /** The laws can be met: the identity codec meets them. */
  lemma {:induction false} IdentityFeed(inputs: seq<Bytes>)
    ensures Feed(Identity(), inputs) == Some(((), Flatten(inputs)))
  {
    if inputs != [] {
      var n := |inputs| - 1;
      IdentityFeed(inputs[..n]);
      FlattenSnoc(inputs[..n], inputs[n]);
      assert inputs == inputs[..n] + [inputs[n]];
    }
  }

  function Identity(): Codec<()> {
    Codec(Some(()), (s: (), chunk: Bytes) => Some((s, chunk)), s => Some([]), (bytes: Bytes) => bytes)
  }

  lemma IdentityIsLawful()
    ensures Lawful(Identity())
  {
    forall inputs | Feed(Identity(), inputs).Some?
      ensures var (s, emitted) := Feed(Identity(), inputs).value;
              && Identity().decode(emitted) == Flatten(inputs)
              && (Identity().finish(s).Some? ==> Identity().decode(emitted + Identity().finish(s).value) == Flatten(inputs))
    {
      IdentityFeed(inputs);
      assert Flatten(inputs) + [] == Flatten(inputs);
    }
  }

  // --- the adapter object -------------------------------------------------------------------------

  /** The inner stream; polling it after its end or failure is a caller's error. */
  class InnerStream {
    var script: seq<InnerPoll>
    ghost var over: bool

    constructor (script: seq<InnerPoll>)
      ensures this.script == script && !over
    {
      this.script, over := script, false;
    }

    method Poll() returns (r: InnerPoll)
      requires !over
      modifies this
      ensures old(script) == [] ==> r.Pending? && script == [] && !over
      ensures old(script) != [] ==> r == old(script)[0] && script == old(script)[1..] && over == (r.End? || r.Failed?)
    {
      if script == [] {
        return Pending;
      }
      r := script[0];
      script, over := script[1..], r.End? || r.Failed?;
    }
  }

  class EncoderStream<S> {
    const codec: Codec<S>
    const inner: InnerStream
    var encoder: Option<S>
    var initError: bool
    ghost var consumed: seq<Bytes>

    ghost function Abs(): Adapter<S>
      reads this, inner
    {
      Adapter(inner.script, inner.over, encoder, initError, consumed)
    }

    /** The encoder doubles as the flag that the inner stream may still be polled. */
    ghost predicate Valid()
      reads this, inner
    {
      (encoder.Some? ==> !inner.over) && (initError ==> encoder.None?)
    }

    constructor (codec: Codec<S>, inner: InnerStream)
      requires !inner.over
      ensures Valid() && this.codec == codec && this.inner == inner
      ensures Abs() == Init(codec, inner.script)
    {
      this.codec, this.inner := codec, inner;
      encoder, initError, consumed := codec.build, codec.build.None?, [];
    }

    method Poll() returns (r: Polled)
      requires Valid()
      modifies this, inner
      ensures Valid()
      ensures (Abs(), r) == PollNext(codec, old(Abs()))
    {
      if initError {
        initError := false;
        return YieldError;
      }
      if encoder.None? {
        return Finished;
      }
      while true
        invariant Valid() && encoder.Some? && !initError
        invariant Advance(codec, Abs()) == PollNext(codec, old(Abs()))
        decreases |inner.script|
      {
        var polled := inner.Poll();
        match polled {
          case Chunk(bytes) =>
            var w := codec.write(encoder.value, bytes);
            if w.None? {
              encoder := None;
              return YieldError;
            }
            encoder, consumed := Some(w.value.0), consumed + [bytes];
            if w.value.1 != [] {
              return Yield(w.value.1);
            }
          case Failed =>
            encoder := None;
            return YieldError;
          case End =>
            var tail := codec.finish(encoder.value);
            encoder := None;
            if tail.None? {
              return YieldError;
            }
            return if tail.value == [] then Finished else Yield(tail.value);
          case Pending =>
            return NotReady;
        }
      }
    }
  }
}
