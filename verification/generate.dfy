/** The `/ask` endpoint: the user turn, the dedicated generate adapter with
    its validation and single retry, the fall-back to `chat_with_failover`,
    and what an answer leaves in the history and the pattern bank.
    What an adapter call returns, whether the dedicated adapter reports
    itself available, the clock and `json.loads` are parameters; the text of
    the user message (`build_user_message`) and the system prompt are not
    modelled. */
module Generate {
  import opened Wrappers
  import opened Json
  import opened Seqs
  import opened Notes
  import opened Prompt
  import opened Response
  import opened Session
  import opened Breaker
  import opened Registry

  /** The name the dedicated generate adapter is registered under. */
  const GenerateProvider: string := "ollama_generate"
  /** The original call plus one retry. */
  const MaxAttempts: nat := 2
  const GenerateTemperature: real := 0.4
  const RetryTemperature: real := 0.2
  const RetryBoost: int := 600
  const MaxGenerateTokens: int := 3200
  const ChatMaxTokens: int := 4096

  datatype Mode = GenerateMode | ChatMode

  /** What `/ask` reads of its request; `genre` is the request's own, which
      may be missing or empty. */
  datatype Request = Request(prompt: string, mode: Mode, genre: Option<string>, userMessage: string)

  /** The server's globals: the registry (with its breaker), the history,
      the pattern bank and the current genre. */
  datatype Server = Server(registry: Registry, history: seq<Message>, bank: Bank, genre: Option<string>)

  /** The sampling arguments that vary between calls: `max_tokens` and,
      in generate mode, `temperature`. */
  datatype Settings = Settings(maxTokens: int, temperature: Option<real>)

  /** One adapter call: the messages sent and the arguments. */
  datatype Call = Call(messages: seq<Message>, settings: Settings)

  /** What the dedicated adapter's `chat` did: raised, returned nothing,
      or replied; the elapsed time is read from the clock around it. */
  datatype GenCall =
    | GenRaised
    | GenNone(elapsedMs: real)
    | GenReplied(text: string, model: string, provider: string, elapsedMs: real)

  /** The dedicated adapter's behaviour on attempt `i` with the given call. */
  type GenOracle = (nat, Call) -> GenCall

  datatype Answer = Answer(text: string, blocks: seq<Json>, model: string, provider: string, patternId: Option<nat>)

  /** 503 without an active provider, 502 when failover gives up, and an
      unhandled exception when the validator meets a value it cannot coerce. */
  datatype AskError = NoProvider | ProvidersFailed(error: FailoverError) | Crashed

  /** The server afterwards, the calls made to the dedicated adapter, the
      call handed to `chat_with_failover` if it was reached, and the reply. */
  datatype Asked = Asked(server: Server, dedicated: seq<Call>, fallback: Option<Call>, result: Result<Answer, AskError>)

  /** The arguments of a retry: 600 more tokens, at most 3200, and a lower
      temperature. */
  function Boost(s: Settings): (r: Settings)
    ensures r.temperature == Some(RetryTemperature)
    ensures s.maxTokens <= MaxGenerateTokens ==> s.maxTokens <= r.maxTokens <= MaxGenerateTokens
    ensures s.maxTokens + RetryBoost <= MaxGenerateTokens ==> r.maxTokens == s.maxTokens + RetryBoost
  {
    Settings(Min(s.maxTokens + RetryBoost, MaxGenerateTokens), Some(RetryTemperature))
  }

  /** The validator can run on every block without raising. */
  predicate Validatable(blocks: seq<Json>) {
    forall i :: 0 <= i < |blocks| ==> BlockCoercible(blocks[i])
  }

  predicate AllValidated(blocks: seq<Json>) {
    forall i :: 0 <= i < |blocks| ==> ValidatedBlock(blocks[i])
  }

  /** `parse_generate_response` then `validate_and_fix_notes`; none when the
      validator would raise. */
  function Evaluate(text: string, parse: Parser): (r: Option<seq<Json>>)
    ensures r.Some? <==> Validatable(ParseGenerateResponse(text, parse))
    ensures r.Some? ==> |r.value| == |ParseGenerateResponse(text, parse)|
    ensures r.Some? ==> AllObjects(r.value) && AllValidated(r.value)
    ensures r.Some? ==> r.value == ValidateAndFixNotes(ParseGenerateResponse(text, parse))
  {
    var parsed := ParseGenerateResponse(text, parse);
    if Validatable(parsed) then Some(ValidateAndFixNotes(parsed)) else None
  }

  /** A reply read as one validatable block is answered with that block
      validated. */
  lemma {:induction false} EvaluateOne(text: string, parse: Parser, b: Json)
    requires ParseGenerateResponse(text, parse) == [b]
    requires BlockCoercible(b)
    ensures Evaluate(text, parse) == Some([ValidateBlock(b)])
  {
    assert Validatable([b]);
    assert Evaluate(text, parse) == Some(ValidateAndFixNotes([b]));
    ValidateSingle(b);
  }

  /** A reply whose note has its pitch as a string, such as
      `{"midi_notes": [{"pitch": "60"}]}`, is validated, not a crash. */
  lemma {:induction false} StringPitchEvaluates(text: string, parse: Parser, n: int, b: Json)
    requires b == JObj(map[MidiNotes := JArr([JObj(map["pitch" := JStr(IntText(n))])])])
    requires ParseOrRepair(Normalize(Prepare(text)), parse) == Some(b)
    ensures BlockCoercible(b) && Evaluate(text, parse) == Some([ValidateBlock(b)])
  {
    StringPitchBlock(n, b);
    ParsedObject(text, parse, b);
    EvaluateOne(text, parse, b);
  }

  /** The result is not good enough: no blocks, no notes, or fewer than half
      of the notes asked for. */
  predicate NeedsRetry(blocks: seq<Json>, requested: nat)
    requires AllObjects(blocks)
  {
    |blocks| == 0 || NoteCount(blocks) == 0 || (requested > 0 && 2 * NoteCount(blocks) < requested)
  }

  /** What an attempt makes of one reply: the validator raised, or the
      validated result with whether it needs another attempt, already tiled
      to the requested count for when it is kept. */
  datatype Verdict = Crash | Judged(retry: bool, blocks: seq<Json>)

  /** Judged blocks are dicts whose notes are all clamped. */
  type Judgement = v: Verdict | v.Judged? ==> AllObjects(v.blocks) && AllValidated(v.blocks) witness Crash

  /** The body of one attempt after the call returned: parse, validate,
      count, and tile to `requested` notes. */
  function Judge(parse: Parser, requested: nat, text: string): Judgement {
    match Evaluate(text, parse)
    case None => Crash
    case Some(blocks) =>
      ExtendedValidated(blocks, requested);
      Judged(NeedsRetry(blocks, requested), ExtendPattern(blocks, requested))
  }

  /** The rest of an attempt, for a loop aiming at `requested` notes. */
  function JudgeFor(parse: Parser, requested: nat): string -> Judgement {
    text => Judge(parse, requested, text)
  }

  /** How the dedicated loop ended: with an answer, by breaking out to the
      failover path with the arguments current at that point, or by an
      exception from the validator. */
  datatype Loop =
    | Done(breaker: Breaker, calls: seq<Call>, reply: Reply, blocks: seq<Json>)
    | GaveUp(breaker: Breaker, calls: seq<Call>, settings: Settings)
    | LoopCrashed(breaker: Breaker, calls: seq<Call>)

  /** What one pass of the loop body decides: the loop ends here, or it goes
      round again with the breaker and the calls made so far. */
  datatype Next = Stop(outcome: Loop) | Again(breaker: Breaker, calls: seq<Call>)

  /** One pass of the `for attempt in range(max_attempts)` body, with `judge`
      the rest of the body after the call. A returned reply records a
      success; an exception records nothing and breaks out. A result that
      needs a retry goes round again unless this was the last attempt. */
  function Pass(gen: GenOracle, judge: string -> Judgement, messages: seq<Message>,
                   attempt: nat, settings: Settings, b: Breaker, calls: seq<Call>): (r: Next)
    ensures var sent := calls + [Call(messages, settings)];
      r.Stop? ==> r.outcome.calls == sent
    ensures var sent := calls + [Call(messages, settings)];
      r.Again? ==> r.calls == sent
    ensures var o := gen(attempt, Call(messages, settings));
      r.Again? <==> o.GenReplied? && judge(o.text).Judged? && judge(o.text).retry && attempt < MaxAttempts - 1
    ensures var o := gen(attempt, Call(messages, settings));
      r.Stop? ==> r.outcome.breaker == if o.GenRaised? then b else RecordSuccess(b, GenerateProvider, o.elapsedMs)
    ensures var o := gen(attempt, Call(messages, settings));
      r.Again? ==> r.breaker == RecordSuccess(b, GenerateProvider, o.elapsedMs)
    ensures r.Stop? && r.outcome.GaveUp? ==> r.outcome.settings == settings
    ensures r.Stop? && r.outcome.GaveUp? ==> !gen(attempt, Call(messages, settings)).GenReplied?
    ensures r.Stop? && gen(attempt, Call(messages, settings)).GenRaised? ==> r.outcome.GaveUp?
    ensures r.Stop? && r.outcome.Done? ==> var v := judge(r.outcome.reply.text);
      v.Judged? && v.blocks == r.outcome.blocks && (v.retry ==> attempt >= MaxAttempts - 1)
  {
    var call := Call(messages, settings);
    var sent := calls + [call];
    match gen(attempt, call)
    case GenRaised => Stop(GaveUp(b, sent, settings))
    case GenNone(ms) => Stop(GaveUp(RecordSuccess(b, GenerateProvider, ms), sent, settings))
    case GenReplied(text, model, provider, ms) =>
      var b' := RecordSuccess(b, GenerateProvider, ms);
      match judge(text)
      case Crash => Stop(LoopCrashed(b', sent))
      case Judged(retry, blocks) =>
        if !retry || attempt >= MaxAttempts - 1 then Stop(Done(b', sent, Reply(text, model, provider), blocks))
        else Again(b', sent)
  }

  /** The `for attempt in range(max_attempts)` loop from attempt `attempt` on:
      each retry is made with boosted arguments. */
  function GenLoop(gen: GenOracle, judge: string -> Judgement, messages: seq<Message>,
                   attempt: nat, settings: Settings, b: Breaker, calls: seq<Call>): (r: Loop)
    requires attempt < MaxAttempts && |calls| == attempt
    ensures attempt < |r.calls| <= MaxAttempts
    ensures calls + [Call(messages, settings)] <= r.calls
    ensures r.Done? ==> AllObjects(r.blocks) && AllValidated(r.blocks)
    decreases MaxAttempts - attempt
  {
    match Pass(gen, judge, messages, attempt, settings, b, calls)
    case Stop(outcome) => outcome
    case Again(b', sent) => GenLoop(gen, judge, messages, attempt + 1, Boost(settings), b', sent)
  }

  /** Tiling keeps blocks validated: the copies are clamped notes too. */
  lemma {:induction false} ExtendedValidated(blocks: seq<Json>, target: int)
    requires AllObjects(blocks) && AllValidated(blocks)
    ensures target > 0 ==> ExtendReady(blocks, target)
    ensures AllObjects(ExtendPattern(blocks, target)) && AllValidated(ExtendPattern(blocks, target))
  {
    ValidatedExtendReady(blocks, target);
    ExtendNeverShrinks(blocks, target);
    var r := ExtendPattern(blocks, target);
    if target > 0 {
      forall i | 0 <= i < |r| ensures ValidatedBlock(r[i]) {
        ExtendedBlockValidated(blocks[i], r[i], target);
      }
    }
  }

  lemma {:induction false} ExtendedBlockValidated(b: Json, e: Json, target: int)
    requires ValidatedBlock(b) && e.JObj? && target > 0
    requires e.fields.Keys == b.fields.Keys
    requires forall k :: k in b.fields && !IsNoteKey(k) ==> e.fields[k] == b.fields[k]
    requires forall k :: IsNoteKey(k) && HasList(b.fields, k) ==>
      ListReady(b.fields, k, target) && e.fields[k] == JArr(ExtendList(b.fields[k].items, target))
    requires forall k :: k in b.fields && !b.fields[k].JArr? ==> e.fields[k] == b.fields[k]
    ensures ValidatedBlock(e)
  {
    forall k | IsNoteKey(k) && HasList(e.fields, k) ensures AllValidNotes(e.fields[k].items) {
      TiledValid(b.fields[k].items, target);
    }
  }

  /** Every call from `from` on sends `messages`, and each one after the
      first of them the boosted arguments of the call before it. */
  ghost predicate CallsChain(cs: seq<Call>, from: nat, messages: seq<Message>) {
    && (forall k :: from <= k < |cs| ==> cs[k].messages == messages)
    && (forall k :: from <= k < |cs| - 1 ==> cs[k + 1].settings == Boost(cs[k].settings))
  }

  /** Every call of the loop sends the same messages, and each retry the
      boosted arguments of the call before it. */
  lemma {:induction false} LoopCalls(gen: GenOracle, judge: string -> Judgement, messages: seq<Message>,
                                     attempt: nat, settings: Settings, b: Breaker, calls: seq<Call>)
    requires attempt < MaxAttempts && |calls| == attempt
    ensures CallsChain(GenLoop(gen, judge, messages, attempt, settings, b, calls).calls, attempt, messages)
    decreases MaxAttempts - attempt
  {
    var call := Call(messages, settings);
    var r := GenLoop(gen, judge, messages, attempt, settings, b, calls);
    match Pass(gen, judge, messages, attempt, settings, b, calls)
    case Stop(outcome) =>
      assert r == outcome;
      ChainOfOne(r.calls, calls, call, messages);
    case Again(b', sent) =>
      var next := Call(messages, Boost(settings));
      var r' := GenLoop(gen, judge, messages, attempt + 1, Boost(settings), b', sent);
      assert r == r';
      LoopCalls(gen, judge, messages, attempt + 1, Boost(settings), b', sent);
      TwoCalls(r.calls, calls, call, next);
      ChainGrows(r.calls, attempt, messages);
  }

  /** A call list that starts with `calls`, then `call`, then `next`. */
  lemma {:induction false} TwoCalls(cs: seq<Call>, calls: seq<Call>, call: Call, next: Call)
    requires calls + [call] + [next] <= cs
    ensures cs[|calls|] == call && cs[|calls| + 1] == next
  {
    assert (calls + [call] + [next])[|calls|] == call;
  }

  lemma {:induction false} ChainOfOne(cs: seq<Call>, calls: seq<Call>, call: Call, messages: seq<Message>)
    requires cs == calls + [call] && call.messages == messages
    ensures CallsChain(cs, |calls|, messages)
  {
    assert cs[|calls|] == call;
  }

  lemma {:induction false} ChainGrows(cs: seq<Call>, from: nat, messages: seq<Message>)
    requires from + 1 < |cs| && CallsChain(cs, from + 1, messages)
    requires cs[from].messages == messages && cs[from + 1].settings == Boost(cs[from].settings)
    ensures CallsChain(cs, from, messages)
  {
  }

  /** A break hands on the arguments of the last call; an answer is the
      judged result of the last reply, kept despite a retry verdict only on
      the last attempt. */
  lemma {:induction false} LoopEnds(gen: GenOracle, judge: string -> Judgement, messages: seq<Message>,
                                    attempt: nat, settings: Settings, b: Breaker, calls: seq<Call>)
    requires attempt < MaxAttempts && |calls| == attempt
    ensures var r := GenLoop(gen, judge, messages, attempt, settings, b, calls);
      && (r.GaveUp? ==> r.settings == r.calls[|r.calls| - 1].settings)
      && (r.Done? ==> var v := judge(r.reply.text); v.Judged? && v.blocks == r.blocks && (v.retry ==> |r.calls| == MaxAttempts))
    decreases MaxAttempts - attempt
  {
    var r := GenLoop(gen, judge, messages, attempt, settings, b, calls);
    match Pass(gen, judge, messages, attempt, settings, b, calls)
    case Stop(outcome) =>
      assert r == outcome;
      assert r.calls[|r.calls| - 1] == Call(messages, settings);
    case Again(b', sent) =>
      assert r == GenLoop(gen, judge, messages, attempt + 1, Boost(settings), b', sent);
      LoopEnds(gen, judge, messages, attempt + 1, Boost(settings), b', sent);
  }

  /** `after` differs from `before` only by `successes` more successes of
      the dedicated adapter: no new failure, no other record touched. */
  ghost predicate SuccessesOnly(before: Breaker, after: Breaker, successes: int) {
    && HealthOf(after, GenerateProvider).errorCount == HealthOf(before, GenerateProvider).errorCount
    && HealthOf(after, GenerateProvider).successCount == HealthOf(before, GenerateProvider).successCount + successes
    && (forall n :: n != GenerateProvider ==> HealthOf(after, n) == HealthOf(before, n))
  }

  lemma {:induction false} SuccessOne(b: Breaker, ms: real)
    ensures SuccessesOnly(b, RecordSuccess(b, GenerateProvider, ms), 1)
  {
    var r := RecordSuccess(b, GenerateProvider, ms);
    forall n | n != GenerateProvider ensures HealthOf(r, n) == HealthOf(b, n) {
      assert n in r.health <==> n in b.health;
    }
  }

  lemma {:induction false} SuccessesChain(a: Breaker, b: Breaker, c: Breaker, x: int, y: int)
    requires SuccessesOnly(a, b, x) && SuccessesOnly(b, c, y)
    ensures SuccessesOnly(a, c, x + y)
  {
  }

  /** The successes a loop run from `attempt` records: one for every call
      that returned, that is every call but a final one that raised. */
  function Returned(gen: GenOracle, r: Loop, attempt: nat): int
    requires |r.calls| > 0
  {
    var raisedLast := r.GaveUp? && gen(|r.calls| - 1, r.calls[|r.calls| - 1]).GenRaised?;
    (|r.calls| - attempt) - (if raisedLast then 1 else 0)
  }

  /** The loop never records a failure: the dedicated adapter's record
      gains one success for every call that returned (all but a final
      exception), and no other record changes. */
  lemma {:induction false} LoopBreaker(gen: GenOracle, judge: string -> Judgement, messages: seq<Message>,
                                       attempt: nat, settings: Settings, b: Breaker, calls: seq<Call>)
    requires attempt < MaxAttempts && |calls| == attempt
    ensures var r := GenLoop(gen, judge, messages, attempt, settings, b, calls);
      SuccessesOnly(b, r.breaker, Returned(gen, r, attempt))
    decreases MaxAttempts - attempt
  {
    var call := Call(messages, settings);
    var r := GenLoop(gen, judge, messages, attempt, settings, b, calls);
    match Pass(gen, judge, messages, attempt, settings, b, calls)
    case Stop(outcome) =>
      assert r == outcome;
      StopBreaker(gen, outcome, b, attempt, calls, call);
    case Again(b', sent) =>
      var r' := GenLoop(gen, judge, messages, attempt + 1, Boost(settings), b', sent);
      assert r == r';
      LoopBreaker(gen, judge, messages, attempt + 1, Boost(settings), b', sent);
      AgainBreaker(gen, r', b, b', attempt, gen(attempt, call).elapsedMs);
  }

  /** The loop stopped after its first call. */
  lemma {:induction false} StopBreaker(gen: GenOracle, r: Loop, b: Breaker, attempt: nat, calls: seq<Call>, call: Call)
    requires |calls| == attempt && r.calls == calls + [call]
    requires gen(attempt, call).GenRaised? ==> r.GaveUp? && r.breaker == b
    requires !gen(attempt, call).GenRaised? ==> r.breaker == RecordSuccess(b, GenerateProvider, gen(attempt, call).elapsedMs)
    ensures SuccessesOnly(b, r.breaker, Returned(gen, r, attempt))
  {
    var raised := gen(attempt, call).GenRaised?;
    LastCall(gen, r, calls, call);
    if raised {
      NoSuccess(b, r.breaker, Returned(gen, r, attempt));
    } else {
      SuccessOneAt(b, r.breaker, gen(attempt, call).elapsedMs, Returned(gen, r, attempt));
    }
  }

  lemma {:induction false} LastCall(gen: GenOracle, r: Loop, calls: seq<Call>, call: Call)
    requires r.calls == calls + [call]
    requires gen(|calls|, call).GenRaised? ==> r.GaveUp?
    ensures Returned(gen, r, |calls|) == if gen(|calls|, call).GenRaised? then 0 else 1
  {
    assert r.calls[|r.calls| - 1] == call;
  }

  lemma {:induction false} NoSuccess(b: Breaker, after: Breaker, k: int)
    requires after == b && k == 0
    ensures SuccessesOnly(b, after, k)
  {
  }

  lemma {:induction false} SuccessOneAt(b: Breaker, after: Breaker, ms: real, k: int)
    requires after == RecordSuccess(b, GenerateProvider, ms) && k == 1
    ensures SuccessesOnly(b, after, k)
  {
    SuccessOne(b, ms);
  }

  /** The loop went round again after a call that returned. */
  lemma {:induction false} AgainBreaker(gen: GenOracle, r: Loop, b: Breaker, b': Breaker, attempt: nat, ms: real)
    requires |r.calls| > 0 && b' == RecordSuccess(b, GenerateProvider, ms)
    requires SuccessesOnly(b', r.breaker, Returned(gen, r, attempt + 1))
    ensures SuccessesOnly(b, r.breaker, Returned(gen, r, attempt))
  {
    SuccessOne(b, ms);
    SuccessesChain(b, b', r.breaker, 1, Returned(gen, r, attempt + 1));
  }

  /** A second call is made exactly when the first one returned a reply
      that the validator accepted but judged not good enough. */
  lemma {:induction false} RetryIff(gen: GenOracle, judge: string -> Judgement, messages: seq<Message>, settings: Settings, b: Breaker)
    ensures var r := GenLoop(gen, judge, messages, 0, settings, b, []);
      var first := gen(0, Call(messages, settings));
      |r.calls| == MaxAttempts <==> first.GenReplied? && judge(first.text).Judged? && judge(first.text).retry
  {
  }

  /** A result the loop accepts without a retry has notes, at least as many
      as requested: short patterns are tiled up to the target. */
  lemma {:induction false} JudgeMeetsTarget(parse: Parser, requested: nat, text: string)
    ensures var v := Judge(parse, requested, text);
      v.Judged? && !v.retry ==> 0 < NoteCount(v.blocks) && requested <= NoteCount(v.blocks)
  {
    var e := Evaluate(text, parse);
    if e.Some? {
      var blocks := e.value;
      if !NeedsRetry(blocks, requested) {
        ValidatedExtendReady(blocks, requested);
        if requested > 0 {
          ExtendReachesTarget(blocks, requested);
        }
        ExtendNeverShrinks(blocks, requested);
      }
    }
  }

  // ── /ask ───────────────────────────────────────────────────────────

  /** The arguments `/ask` starts with: the estimated budget at temperature
      0.4 in generate mode, 4096 tokens otherwise. */
  function InitialSettings(req: Request): Settings {
    if req.mode == GenerateMode then Settings(EstimateGenerateTokens(req.prompt), Some(GenerateTemperature))
    else Settings(ChatMaxTokens, None)
  }

  /** `req.genre or current_genre`: a missing or empty genre falls back to
      the server's. */
  function ResolveGenre(s: Server, req: Request): (g: Option<string>)
    ensures req.genre.Some? && req.genre.value != "" ==> g == req.genre
    ensures req.genre.None? || req.genre.value == "" ==> g == s.genre
  {
    if req.genre.Some? && req.genre.value != "" then req.genre else s.genre
  }

  /** The messages sent: only the new user message in generate mode, the
      whole history (already holding that message) otherwise. */
  function Outgoing(req: Request, history: seq<Message>): seq<Message> {
    if req.mode == GenerateMode then [Message("user", req.userMessage)] else history
  }

  /** The dedicated adapter is used for a generate request when it is
      registered and reports itself available. */
  predicate UsesDedicated(s: Server, req: Request, genUp: bool) {
    req.mode == GenerateMode && GenerateProvider in s.registry.providers && genUp
  }

  function WithBreaker(s: Server, b: Breaker): (r: Server)
    ensures r.registry.providers == s.registry.providers && r.registry.active == s.registry.active
    ensures r.registry.order == s.registry.order && r.registry.breaker == b
    ensures r.history == s.history && r.bank == s.bank && r.genre == s.genre
  {
    s.(registry := s.registry.(breaker := b))
  }

  /** From `chat_with_failover` on, for a server whose history already holds
      the user turn: the reply is appended to the history before it is
      parsed; in generate mode it is validated, tiled to the prompt's own
      count (no default here) and saved; otherwise its fenced blocks are
      returned and nothing is saved. */
  function Fallback(s: Server, req: Request, genre: Option<string>, call: Call,
                    env: nat -> Attempt, parse: Parser, timestamp: string): (r: Asked)
    ensures r.dedicated == [] && r.fallback == Some(call)
    ensures r.result != Err(NoProvider)
  {
    var f := ChatWithFailover(s.registry, env);
    var s2 := WithBreaker(s, f.breaker);
    match f.result
    case Err(e) => Asked(s2, [], Some(call), Err(ProvidersFailed(e)))
    case Ok(reply) =>
      var h := AddAssistantTurn(s.history, reply.text);
      if req.mode == GenerateMode then
        match Judge(parse, CountRequestedNotes(req.prompt), reply.text)
        case Crash => Asked(s2.(history := h), [], Some(call), Err(Crashed))
        case Judged(_, blocks) =>
          var saved := SavePattern(s.bank, req.prompt, genre, reply.model, blocks, timestamp);
          Asked(Server(s2.registry, h, saved.bank, s.genre), [], Some(call),
                Ok(Answer(reply.text, blocks, reply.model, reply.provider, saved.id)))
      else
        Asked(s2.(history := h), [], Some(call),
              Ok(Answer(reply.text, ExtractJsonBlocks(reply.text, parse), reply.model, reply.provider, None)))
  }

  /** The branch of the loop that returns: the reply is appended to the
      history and the tiled result saved. */
  function Kept(s: Server, req: Request, genre: Option<string>, b: Breaker, calls: seq<Call>,
                reply: Reply, blocks: seq<Json>, timestamp: string): (r: Asked)
    requires AllObjects(blocks)
    ensures r.dedicated == calls && r.fallback == None && r.result.Ok?
  {
    var saved := SavePattern(s.bank, req.prompt, genre, reply.model, blocks, timestamp);
    Asked(Server(s.registry.(breaker := b), AddAssistantTurn(s.history, reply.text), saved.bank, s.genre),
          calls, None, Ok(Answer(reply.text, blocks, reply.model, reply.provider, saved.id)))
  }

  /** The dedicated generate path, for a server whose history already holds
      the user turn: the loop aims at the prompt's count or its default. */
  function Dedicated(s: Server, req: Request, genre: Option<string>, call: Call, gen: GenOracle,
                     env: nat -> Attempt, parse: Parser, timestamp: string): (r: Asked)
    ensures 0 < |r.dedicated| <= MaxAttempts
    ensures r.result != Err(NoProvider)
  {
    var requested := RequestedWithDefault(req.prompt);
    match GenLoop(gen, JudgeFor(parse, requested), call.messages, 0, call.settings, s.registry.breaker, [])
    case Done(b, calls, reply, blocks) => Kept(s, req, genre, b, calls, reply, blocks, timestamp)
    case LoopCrashed(b, calls) => Asked(WithBreaker(s, b), calls, None, Err(Crashed))
    case GaveUp(b, calls, last) =>
      Fallback(WithBreaker(s, b), req, genre, Call(call.messages, last), env, parse, timestamp).(dedicated := calls)
  }

  /** `ask`: with no active provider nothing happens; otherwise the user
      turn is recorded, a generate request tries the dedicated adapter
      first, and whatever that loop does not settle goes to failover with
      the arguments current when the loop broke off. */
  function Ask(s: Server, req: Request, genUp: bool, gen: GenOracle, env: nat -> Attempt,
               parse: Parser, timestamp: string): (r: Asked)
    ensures s.registry.active == "" <==> r.result == Err(NoProvider)
    ensures r.result == Err(NoProvider) ==> r.server == s && r.dedicated == [] && r.fallback == None
    ensures |r.dedicated| <= MaxAttempts
    ensures |r.dedicated| > 0 <==> s.registry.active != "" && UsesDedicated(s, req, genUp)
  {
    if s.registry.active == "" then Asked(s, [], None, Err(NoProvider))
    else
      var s1 := s.(history := AddUserTurn(s.history, req.userMessage));
      var genre := ResolveGenre(s, req);
      var call := Call(Outgoing(req, s1.history), InitialSettings(req));
      if UsesDedicated(s, req, genUp) then Dedicated(s1, req, genre, call, gen, env, parse, timestamp)
      else Fallback(s1, req, genre, call, env, parse, timestamp)
  }

  // ── Properties of /ask ─────────────────────────────────────────────

  /** What the server keeps true between requests: the bank's promises,
      a well-formed registry, and a history of at most 41 entries (the cap
      of 40 is applied to user turns only). */
  predicate ServerOk(s: Server) {
    BankOk(s.bank) && RegistryOk(s.registry) && |s.history| <= MaxHistory + 1
  }

  /** What an answer leaves behind, given the server as it was after the
      user turn: the reply is the last history entry; a chat answer saves
      nothing; a generate answer holds only clamped notes and is saved
      exactly when it has notes, as the newest pattern. */
  predicate Recorded(s: Server, req: Request, r: Asked)
    requires r.result.Ok?
  {
    var a := r.result.value;
    && r.server.history == s.history + [Message("assistant", a.text)]
    && (req.mode == ChatMode ==> a.patternId.None?)
    && (req.mode == GenerateMode ==>
          AllObjects(a.blocks) && AllValidated(a.blocks) && (a.patternId.Some? <==> NoteCount(a.blocks) > 0))
    && (a.patternId.None? ==> r.server.bank == s.bank)
    && (a.patternId.Some? ==>
          var l := Latest(r.server.bank);
          && l.Some? && l.value.id == a.patternId.value && l.value.blocks == a.blocks
          && GetPattern(r.server.bank.entries, a.patternId.value) == l)
  }

  lemma {:induction false} SavedAnswer(s: Server, req: Request, genre: Option<string>, model: string, blocks: seq<Json>, timestamp: string)
    requires BankOk(s.bank) && AllObjects(blocks)
    ensures var saved := SavePattern(s.bank, req.prompt, genre, model, blocks, timestamp);
      && BankOk(saved.bank)
      && (saved.id.Some? <==> NoteCount(blocks) > 0)
      && (saved.id.None? ==> saved.bank == s.bank)
      && (saved.id.Some? ==>
            var l := Latest(saved.bank);
            && l.Some? && l.value.id == saved.id.value && l.value.blocks == blocks
            && GetPattern(saved.bank.entries, saved.id.value) == l)
  {
    SavePreserves(s.bank, req.prompt, genre, model, blocks, timestamp);
    SaveThenGet(s.bank, req.prompt, genre, model, blocks, timestamp);
  }

  lemma {:induction false} FallbackRecorded(s: Server, req: Request, genre: Option<string>, call: Call,
                         env: nat -> Attempt, parse: Parser, timestamp: string)
    requires BankOk(s.bank)
    ensures var r := Fallback(s, req, genre, call, env, parse, timestamp);
      r.result.Ok? ==> Recorded(s, req, r)
  {
    var f := ChatWithFailover(s.registry, env);
    if f.result.Ok? && req.mode == GenerateMode {
      var reply := f.result.value;
      var v := Judge(parse, CountRequestedNotes(req.prompt), reply.text);
      if v.Judged? {
        SavedAnswer(s, req, genre, reply.model, v.blocks, timestamp);
      }
    }
  }

  lemma {:induction false} DedicatedRecorded(s: Server, req: Request, genre: Option<string>, call: Call, gen: GenOracle,
                          env: nat -> Attempt, parse: Parser, timestamp: string)
    requires BankOk(s.bank) && req.mode == GenerateMode
    ensures var r := Dedicated(s, req, genre, call, gen, env, parse, timestamp);
      r.result.Ok? ==> Recorded(s, req, r)
  {
    var requested := RequestedWithDefault(req.prompt);
    var loop := GenLoop(gen, JudgeFor(parse, requested), call.messages, 0, call.settings, s.registry.breaker, []);
    match loop
    case Done(b, calls, reply, blocks) =>
      SavedAnswer(s, req, genre, reply.model, blocks, timestamp);
    case LoopCrashed(b, calls) =>
    case GaveUp(b, calls, last) =>
      FallbackRecorded(WithBreaker(s, b), req, genre, Call(call.messages, last), env, parse, timestamp);
  }

  /** An answered request ends the history with its user turn and the
      reply, and leaves the bank as `Recorded` says. */
  lemma {:induction false} AnswerRecorded(s: Server, req: Request, genUp: bool, gen: GenOracle, env: nat -> Attempt,
                       parse: Parser, timestamp: string)
    requires BankOk(s.bank)
    ensures var r := Ask(s, req, genUp, gen, env, parse, timestamp);
      var s1 := s.(history := AddUserTurn(s.history, req.userMessage));
      r.result.Ok? ==>
        && Recorded(s1, req, r)
        && |r.server.history| >= 2
        && r.server.history[|r.server.history| - 2] == Message("user", req.userMessage)
  {
    var s1 := s.(history := AddUserTurn(s.history, req.userMessage));
    var r := Ask(s, req, genUp, gen, env, parse, timestamp);
    if s.registry.active != "" {
      var genre := ResolveGenre(s, req);
      var call := Call(Outgoing(req, s1.history), InitialSettings(req));
      if UsesDedicated(s, req, genUp) {
        assert r == Dedicated(s1, req, genre, call, gen, env, parse, timestamp);
        DedicatedRecorded(s1, req, genre, call, gen, env, parse, timestamp);
      } else {
        assert r == Fallback(s1, req, genre, call, env, parse, timestamp);
        FallbackRecorded(s1, req, genre, call, env, parse, timestamp);
      }
      if r.result.Ok? {
        UserThenReply(s1.history, req.userMessage, r.server.history, r.result.value.text);
      }
    }
  }

  /** The user turn is second to last once the reply follows it. */
  lemma {:induction false} UserThenReply(h: seq<Message>, question: string, after: seq<Message>, answer: string)
    requires |h| > 0 && h[|h| - 1] == Message("user", question)
    requires after == h + [Message("assistant", answer)]
    ensures |after| >= 2 && after[|after| - 2] == Message("user", question)
  {
  }

  /** Only the breaker of the registry changes, the bank keeps its
      promises, and at most the reply is added to the history. */
  predicate Evolves(s: Server, r: Server) {
    && r.registry.providers == s.registry.providers
    && r.registry.active == s.registry.active
    && r.registry.order == s.registry.order
    && BankOk(r.bank)
    && |r.history| <= |s.history| + 1
  }

  lemma {:induction false} FallbackEvolves(s: Server, req: Request, genre: Option<string>, call: Call,
                        env: nat -> Attempt, parse: Parser, timestamp: string)
    requires BankOk(s.bank)
    ensures Evolves(s, Fallback(s, req, genre, call, env, parse, timestamp).server)
  {
    var f := ChatWithFailover(s.registry, env);
    if f.result.Ok? && req.mode == GenerateMode {
      var reply := f.result.value;
      var v := Judge(parse, CountRequestedNotes(req.prompt), reply.text);
      if v.Judged? {
        SavePreserves(s.bank, req.prompt, genre, reply.model, v.blocks, timestamp);
      }
    }
  }

  lemma {:induction false} DedicatedEvolves(s: Server, req: Request, genre: Option<string>, call: Call, gen: GenOracle,
                         env: nat -> Attempt, parse: Parser, timestamp: string)
    requires BankOk(s.bank)
    ensures Evolves(s, Dedicated(s, req, genre, call, gen, env, parse, timestamp).server)
  {
    var requested := RequestedWithDefault(req.prompt);
    var loop := GenLoop(gen, JudgeFor(parse, requested), call.messages, 0, call.settings, s.registry.breaker, []);
    match loop
    case Done(b, calls, reply, blocks) =>
      SavePreserves(s.bank, req.prompt, genre, reply.model, blocks, timestamp);
    case LoopCrashed(b, calls) =>
    case GaveUp(b, calls, last) =>
      FallbackEvolves(WithBreaker(s, b), req, genre, Call(call.messages, last), env, parse, timestamp);
  }

  /** Every request keeps the server's invariant. */
  lemma {:induction false} AskKeepsServerOk(s: Server, req: Request, genUp: bool, gen: GenOracle, env: nat -> Attempt,
                         parse: Parser, timestamp: string)
    requires ServerOk(s)
    ensures ServerOk(Ask(s, req, genUp, gen, env, parse, timestamp).server)
  {
    var s1 := s.(history := AddUserTurn(s.history, req.userMessage));
    var r := Ask(s, req, genUp, gen, env, parse, timestamp);
    if s.registry.active != "" {
      var genre := ResolveGenre(s, req);
      var call := Call(Outgoing(req, s1.history), InitialSettings(req));
      if UsesDedicated(s, req, genUp) {
        assert r == Dedicated(s1, req, genre, call, gen, env, parse, timestamp);
        DedicatedEvolves(s1, req, genre, call, gen, env, parse, timestamp);
      } else {
        assert r == Fallback(s1, req, genre, call, env, parse, timestamp);
        FallbackEvolves(s1, req, genre, call, env, parse, timestamp);
      }
    }
  }

  /** A generate request the dedicated adapter takes goes to `Dedicated`
      with the user turn recorded and the initial call. */
  lemma {:induction false} AskRoutes(s: Server, req: Request, genUp: bool, gen: GenOracle, env: nat -> Attempt,
                  parse: Parser, timestamp: string)
    requires s.registry.active != "" && UsesDedicated(s, req, genUp)
    ensures var s1 := s.(history := AddUserTurn(s.history, req.userMessage));
      var first := Call([Message("user", req.userMessage)], Settings(EstimateGenerateTokens(req.prompt), Some(GenerateTemperature)));
      Ask(s, req, genUp, gen, env, parse, timestamp) == Dedicated(s1, req, ResolveGenre(s, req), first, gen, env, parse, timestamp)
  {
  }

  /** How `Dedicated` reports its loop: the calls made, the failover call
      exactly when the loop broke off, and the loop's answer otherwise. */
  lemma {:induction false} DedicatedShape(s: Server, req: Request, genre: Option<string>, call: Call, gen: GenOracle,
                       env: nat -> Attempt, parse: Parser, timestamp: string)
    ensures var loop := GenLoop(gen, JudgeFor(parse, RequestedWithDefault(req.prompt)), call.messages, 0, call.settings, s.registry.breaker, []);
      var r := Dedicated(s, req, genre, call, gen, env, parse, timestamp);
      && r.dedicated == loop.calls
      && (r.fallback.Some? <==> loop.GaveUp?)
      && (loop.GaveUp? ==> r.fallback.value == Call(call.messages, loop.settings))
      && (loop.Done? ==> r.result.Ok? && r.result.value.blocks == loop.blocks)
  {
  }

  /** The dedicated path makes at most two calls, the first being the call
      it is given (see `AskRoutes`); when the loop breaks off, failover is
      handed the arguments of the last call, boosted ones included. */
  lemma {:induction false} DedicatedCalls(s: Server, req: Request, genre: Option<string>, call: Call, gen: GenOracle,
                       env: nat -> Attempt, parse: Parser, timestamp: string)
    ensures var r := Dedicated(s, req, genre, call, gen, env, parse, timestamp);
      && 0 < |r.dedicated| <= MaxAttempts && r.dedicated[0] == call
      && (r.fallback.Some? ==> r.fallback.value == r.dedicated[|r.dedicated| - 1])
  {
    var judge := JudgeFor(parse, RequestedWithDefault(req.prompt));
    var loop := GenLoop(gen, judge, call.messages, 0, call.settings, s.registry.breaker, []);
    DedicatedShape(s, req, genre, call, gen, env, parse, timestamp);
    LoopCalls(gen, judge, call.messages, 0, call.settings, s.registry.breaker, []);
    LoopEnds(gen, judge, call.messages, 0, call.settings, s.registry.breaker, []);
    assert loop.calls[0] == call by {
      assert [] + [call] <= loop.calls;
    }
  }

  /** A second call is made exactly when the first reply was judged not
      good enough, and it sends the same messages with the boosted
      arguments. */
  lemma {:induction false} DedicatedRetry(s: Server, req: Request, genre: Option<string>, call: Call, gen: GenOracle,
                       env: nat -> Attempt, parse: Parser, timestamp: string)
    ensures var r := Dedicated(s, req, genre, call, gen, env, parse, timestamp);
      var reply := gen(0, call);
      var judge := JudgeFor(parse, RequestedWithDefault(req.prompt));
      && (|r.dedicated| == MaxAttempts <==> reply.GenReplied? && judge(reply.text).Judged? && judge(reply.text).retry)
      && (|r.dedicated| == MaxAttempts ==> r.dedicated[1] == Call(call.messages, Boost(call.settings)))
  {
    var judge := JudgeFor(parse, RequestedWithDefault(req.prompt));
    var loop := GenLoop(gen, judge, call.messages, 0, call.settings, s.registry.breaker, []);
    DedicatedShape(s, req, genre, call, gen, env, parse, timestamp);
    LoopCalls(gen, judge, call.messages, 0, call.settings, s.registry.breaker, []);
    RetryIff(gen, judge, call.messages, call.settings, s.registry.breaker);
    if |loop.calls| == MaxAttempts {
      assert loop.calls[0] == call by {
        assert [] + [call] <= loop.calls;
      }
    }
  }

  /** A dedicated answer falls short of the requested count (the prompt's,
      or 16 or 8 by default) only when it came from the last attempt. */
  lemma {:induction false} DedicatedMeetsTarget(s: Server, req: Request, genUp: bool, gen: GenOracle, env: nat -> Attempt,
                             parse: Parser, timestamp: string)
    requires s.registry.active != "" && UsesDedicated(s, req, genUp)
    ensures var r := Ask(s, req, genUp, gen, env, parse, timestamp);
      r.result.Ok? && r.fallback.None? ==>
        && AllObjects(r.result.value.blocks)
        && (RequestedWithDefault(req.prompt) <= NoteCount(r.result.value.blocks) || |r.dedicated| == MaxAttempts)
  {
    var s1 := s.(history := AddUserTurn(s.history, req.userMessage));
    var genre := ResolveGenre(s, req);
    var call := Call(Outgoing(req, s1.history), InitialSettings(req));
    var requested := RequestedWithDefault(req.prompt);
    var judge := JudgeFor(parse, requested);
    var loop := GenLoop(gen, judge, call.messages, 0, call.settings, s.registry.breaker, []);
    LoopEnds(gen, judge, call.messages, 0, call.settings, s.registry.breaker, []);
    if loop.Done? {
      JudgeMeetsTarget(parse, requested, loop.reply.text);
    }
  }

  /** A chat request goes straight to failover, sending the whole history
      (the new user turn included) with 4096 tokens; its answer carries
      the reply's fenced blocks and saves nothing. */
  lemma {:induction false} ChatRequest(s: Server, req: Request, genUp: bool, gen: GenOracle, env: nat -> Attempt,
                    parse: Parser, timestamp: string)
    requires s.registry.active != "" && req.mode == ChatMode
    ensures var r := Ask(s, req, genUp, gen, env, parse, timestamp);
      && r.dedicated == []
      && r.fallback == Some(Call(AddUserTurn(s.history, req.userMessage), Settings(ChatMaxTokens, None)))
      && (r.result.Ok? ==>
            && r.result.value.blocks == ExtractJsonBlocks(r.result.value.text, parse)
            && r.result.value.patternId.None? && r.server.bank == s.bank)
  {
  }
}
