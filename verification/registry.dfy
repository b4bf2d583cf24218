/** `ProviderRegistry`: the registered adapters, the active one, the
    registration order used for failover, and `chat_with_failover`. An
    adapter's `chat` is not modelled; what each call returns, and what the
    clock reads around it, come from an oracle. */
module Registry {
  import opened Wrappers
  import opened Breaker

  /** An adapter as the registry sees it: its name and model. */
  datatype Provider = Provider(name: string, model: string)

  datatype Registry = Registry(
    providers: map<string, Provider>,
    active: string,
    breaker: Breaker,
    order: seq<string>)

  function EmptyRegistry(b: Breaker): Registry {
    Registry(map[], "", b, [])
  }

  /** The registry's own promise: the active name is empty or registered,
      and the failover order lists exactly the registered names. */
  predicate RegistryOk(r: Registry) {
    && (r.active == "" || r.active in r.providers)
    && (forall i :: 0 <= i < |r.order| ==> r.order[i] in r.providers)
    && (forall n :: n in r.providers ==> n in r.order)
  }

  /** `register(provider, set_active)`: the adapter is stored under its name
      (replacing one of the same name), its name is appended to the order
      even when already there, and it becomes active when asked to or when
      nothing is active yet. */
  function Register(r: Registry, p: Provider, setActive: bool): (r': Registry)
    ensures r'.providers == r.providers[p.name := p]
    ensures r'.order == r.order + [p.name]
    ensures r'.active == (if setActive || r.active == "" then p.name else r.active)
    ensures r'.breaker == r.breaker
  {
    Registry(r.providers[p.name := p], if setActive || r.active == "" then p.name else r.active,
             r.breaker, r.order + [p.name])
  }

  lemma {:induction false} RegisterKeepsOk(r: Registry, p: Provider, setActive: bool)
    requires RegistryOk(r)
    ensures RegistryOk(Register(r, p, setActive))
  {
  }

  /** The first registration makes its adapter active, without being asked. */
  lemma {:induction false} FirstRegisterActivates(b: Breaker, p: Provider)
    ensures Register(EmptyRegistry(b), p, false).active == p.name
  {
  }

  /** A name registered twice appears twice in the failover order. */
  lemma {:induction false} DuplicateRegistration(b: Breaker, p: Provider)
    ensures Register(Register(EmptyRegistry(b), p, false), p, false).order == [p.name, p.name]
  {
  }

  datatype RegistryError = NoActiveProvider | UnknownProvider(name: string)

  /** The `active` property: the active adapter, an error when there is none. */
  function Active(r: Registry): (res: Result<Provider, RegistryError>)
    ensures res.Ok? <==> r.active in r.providers
    ensures res.Ok? ==> res.value == r.providers[r.active]
  {
    if r.active in r.providers then Ok(r.providers[r.active]) else Err(NoActiveProvider)
  }

  datatype Switched = Switched(registry: Registry, result: Result<Provider, RegistryError>)

  /** `switch(name)`: only a registered name can become active; otherwise the
      registry is left as it was. */
  function Switch(r: Registry, name: string): (s: Switched)
    ensures name in r.providers ==> s.registry == r.(active := name) && s.result == Ok(r.providers[name])
    ensures name !in r.providers ==> s.registry == r && s.result == Err(UnknownProvider(name))
  {
    if name in r.providers then Switched(r.(active := name), Ok(r.providers[name]))
    else Switched(r, Err(UnknownProvider(name)))
  }

  lemma {:induction false} SwitchKeepsOk(r: Registry, name: string)
    requires RegistryOk(r)
    ensures RegistryOk(Switch(r, name).registry)
    ensures Switch(r, name).result.Ok? ==> Active(Switch(r, name).registry) == Switch(r, name).result
  {
  }

  // ── list_available ─────────────────────────────────────────────────

  /** Where `n` first occurs in `s`. */
  function FirstIndex(s: seq<string>, n: string): (k: nat)
    requires n in s
    ensures k < |s| && s[k] == n
    ensures forall j :: 0 <= j < k ==> s[j] != n
  {
    if s[0] == n then 0
    else
      var k := FirstIndex(s[1..], n);
      assert forall j :: 1 <= j < 1 + k ==> s[j] == s[1..][j - 1];
      1 + k
  }

  /** Appending a name moves no earlier name's first occurrence. */
  lemma {:induction false} FirstIndexAppend(order: seq<string>)
    requires |order| > 0
    ensures forall x :: x in order[..|order| - 1] ==> FirstIndex(order, x) == FirstIndex(order[..|order| - 1], x)
  {
    var front := order[..|order| - 1];
    forall x | x in front
      ensures FirstIndex(order, x) == FirstIndex(front, x)
    {
      var k := FirstIndex(front, x);
      assert order[k] == x;
      assert forall j :: 0 <= j < k ==> order[j] != x;
    }
  }

  /** The iteration order of the `providers` dictionary: each registered name
      once, in the order of first registration (re-registering a name
      replaces the adapter but keeps the key's place). */
  function KeyOrder(order: seq<string>, providers: map<string, Provider>): (keys: seq<string>)
    ensures forall i :: 0 <= i < |keys| ==> keys[i] in providers && keys[i] in order
    ensures forall i :: 0 <= i < |order| && order[i] in providers ==> order[i] in keys
    ensures forall i, j :: 0 <= i < j < |keys| ==> keys[i] != keys[j]
  {
    if |order| == 0 then []
    else
      var front := order[..|order| - 1];
      var n := order[|order| - 1];
      var keys := KeyOrder(front, providers);
      assert forall i :: 0 <= i < |front| ==> order[i] == front[i];
      if n in providers && n !in keys then keys + [n] else keys
  }

  /** The names `keys` come in the order of their first occurrence in `order`. */
  predicate FirstOccurrenceOrder(order: seq<string>, keys: seq<string>)
    requires forall i :: 0 <= i < |keys| ==> keys[i] in order
  {
    forall i, j :: 0 <= i < j < |keys| ==> FirstIndex(order, keys[i]) < FirstIndex(order, keys[j])
  }

  /** The keys come in the order their names were first registered. */
  lemma {:induction false} KeyOrderFirstRegistration(order: seq<string>, providers: map<string, Provider>)
    ensures FirstOccurrenceOrder(order, KeyOrder(order, providers))
  {
    if |order| > 0 {
      var front := order[..|order| - 1];
      var n := order[|order| - 1];
      var keys := KeyOrder(front, providers);
      KeyOrderFirstRegistration(front, providers);
      FirstIndexAppend(order);
      var all := KeyOrder(order, providers);
      if n in providers && n !in keys {
        assert n !in front;
        assert FirstIndex(order, n) == |order| - 1;
        assert all == keys + [n];
      } else {
        assert all == keys;
      }
      assert FirstOccurrenceOrder(front, keys);
      forall i, j | 0 <= i < j < |all|
        ensures FirstIndex(order, all[i]) < FirstIndex(order, all[j])
      {
        assert all[i] == keys[i] && keys[i] in front;
        assert FirstIndex(order, all[i]) == FirstIndex(front, keys[i]) < |front|;
        if j < |keys| {
          assert all[j] == keys[j] && keys[j] in front;
          assert FirstIndex(order, all[j]) == FirstIndex(front, keys[j]);
          assert FirstIndex(front, keys[i]) < FirstIndex(front, keys[j]);
        } else {
          assert all[j] == n && FirstIndex(order, n) == |front|;
        }
      }
    }
  }

  /** One row of `list_available()`: the `get_health` report merged with the
      adapter's name, model, whether it is active, and what the adapter's
      own `is_available()` said. */
  datatype Listing = Listing(name: string, model: string, active: bool, available: bool, health: Report)

  datatype Listed = Listed(breaker: Breaker, rows: seq<Listing>)

  /** The loop of `list_available`, one name at a time; each `get_health`
      creates the name's breaker record if it has none. */
  function ListNames(b: Breaker, providers: map<string, Provider>, active: string,
                     available: string -> bool, names: seq<string>): (l: Listed)
    requires forall i :: 0 <= i < |names| ==> names[i] in providers
    ensures |l.rows| == |names|
    decreases |names|
  {
    if |names| == 0 then Listed(b, [])
    else
      var n := names[0];
      var g := GetHealth(b, n);
      var rest := ListNames(g.breaker, providers, active, available, names[1..]);
      Listed(rest.breaker, [Listing(n, providers[n].model, n == active, available(n), g.report)] + rest.rows)
  }

  /** `list_available()`, with the adapters' `is_available()` as a parameter. */
  function ListAvailable(r: Registry, available: string -> bool): (l: Listed)
    ensures |l.rows| == |KeyOrder(r.order, r.providers)|
  {
    ListNames(r.breaker, r.providers, r.active, available, KeyOrder(r.order, r.providers))
  }

  /** Creating one name's record never changes what another name reports. */
  lemma {:induction false} TouchKeepsReports(b: Breaker, n: string, m: string)
    ensures GetHealth(Touch(b, n), m).report == GetHealth(b, m).report
  {
    assert HealthOf(Touch(b, n), m) == HealthOf(b, m);
  }

  /** Each row reports the breaker as it stood before the listing. */
  lemma {:induction false} ListNamesRows(b: Breaker, providers: map<string, Provider>, active: string,
                                         available: string -> bool, names: seq<string>)
    requires forall i :: 0 <= i < |names| ==> names[i] in providers
    ensures var l := ListNames(b, providers, active, available, names);
      forall i :: 0 <= i < |names| ==>
        l.rows[i] == Listing(names[i], providers[names[i]].model, names[i] == active, available(names[i]),
                             GetHealth(b, names[i]).report)
    decreases |names|
  {
    if |names| > 0 {
      var n := names[0];
      var g := GetHealth(b, n);
      var tail := names[1..];
      ListNamesRows(g.breaker, providers, active, available, tail);
      var l := ListNames(b, providers, active, available, names);
      var rest := ListNames(g.breaker, providers, active, available, tail);
      assert l.rows == [Listing(n, providers[n].model, n == active, available(n), g.report)] + rest.rows;
      forall i | 1 <= i < |names|
        ensures l.rows[i] == Listing(names[i], providers[names[i]].model, names[i] == active, available(names[i]),
                                     GetHealth(b, names[i]).report)
      {
        assert l.rows[i] == rest.rows[i - 1];
        assert tail[i - 1] == names[i];
        TouchKeepsReports(b, n, names[i]);
      }
    }
  }

  /** The listing only adds fresh records, for the names it visits. */
  lemma {:induction false} ListNamesTouches(b: Breaker, providers: map<string, Provider>, active: string,
                                            available: string -> bool, names: seq<string>)
    requires forall i :: 0 <= i < |names| ==> names[i] in providers
    ensures var l := ListNames(b, providers, active, available, names);
      forall n :: n in l.breaker.health <==> n in b.health || n in names
    ensures var l := ListNames(b, providers, active, available, names);
      forall n :: n in b.health ==> l.breaker.health[n] == b.health[n]
    decreases |names|
  {
    if |names| > 0 {
      var g := GetHealth(b, names[0]);
      var tail := names[1..];
      ListNamesTouches(g.breaker, providers, active, available, tail);
      assert forall n :: n in names <==> n == names[0] || n in tail;
    }
  }

  /** Under the registry's invariant the listing has one row per registered
      adapter, each exactly once. */
  lemma {:induction false} ListAvailableCovers(r: Registry, available: string -> bool)
    requires RegistryOk(r)
    ensures var keys := KeyOrder(r.order, r.providers);
      (forall n :: n in r.providers <==> n in keys) && |ListAvailable(r, available).rows| == |r.providers|
  {
    var keys := KeyOrder(r.order, r.providers);
    forall n | n in r.providers
      ensures n in keys
    {
      var i :| 0 <= i < |r.order| && r.order[i] == n;
    }
    DistinctCount(keys, r.providers.Keys);
  }

  /** A sequence without repeats that lists exactly the elements of a set
      has the set's size. */
  lemma {:induction false} DistinctCount(s: seq<string>, keys: set<string>)
    requires forall i, j :: 0 <= i < j < |s| ==> s[i] != s[j]
    requires forall n :: n in keys <==> n in s
    ensures |s| == |keys|
    decreases |s|
  {
    if |s| > 0 {
      var last := s[|s| - 1];
      var front := s[..|s| - 1];
      assert forall n :: n in keys - {last} <==> n in front by {
        forall n
          ensures n in keys - {last} <==> n in front
        {
          if n in front {
            var i :| 0 <= i < |front| && front[i] == n;
            assert s[i] == n;
          }
          if n in s && n != last {
            var i :| 0 <= i < |s| && s[i] == n;
            assert i < |s| - 1 && front[i] == n;
          }
        }
      }
      DistinctCount(front, keys - {last});
    }
  }

  // ── chat_with_failover ─────────────────────────────────────────────

  /** The failover order: the active name first, then every other name in
      registration order. */
  function Others(order: seq<string>, active: string): (r: seq<string>)
    ensures forall i :: 0 <= i < |r| ==> r[i] != active && r[i] in order
    ensures forall i :: 0 <= i < |order| && order[i] != active ==> order[i] in r
    ensures |r| <= |order|
  {
    if |order| == 0 then []
    else
      var rest := Others(order[1..], active);
      assert forall i :: 1 <= i < |order| ==> order[i] == order[1..][i - 1];
      if order[0] == active then rest else [order[0]] + rest
  }

  /** The filter keeps order and repeats: it works entry by entry... */
  lemma {:induction false} OthersAppend(a: seq<string>, b: seq<string>, x: string)
    ensures Others(a + b, x) == Others(a, x) + Others(b, x)
    decreases |a|
  {
    if |a| == 0 {
      assert a + b == b;
    } else {
      assert (a + b)[1..] == a[1..] + b;
      OthersAppend(a[1..], b, x);
    }
  }

  /** ... dropping exactly the entries equal to the active name. */
  lemma {:induction false} OthersSingle(n: string, x: string)
    ensures Others([n], x) == if n == x then [] else [n]
  {
    assert [n][1..] == [];
  }

  function AttemptOrder(r: Registry): (names: seq<string>)
    ensures |names| > 0 && names[0] == r.active
    ensures forall i :: 1 <= i < |names| ==> names[i] != r.active && names[i] in r.order
    ensures forall n :: n in r.order ==> n in names
  {
    [r.active] + Others(r.order, r.active)
  }

  /** What an adapter's `chat` did: a reply with its text, model and
      provider tag, or an exception. */
  datatype ChatOutcome = Replied(text: string, model: string, provider: string) | Raised

  /** The environment of the `i`-th candidate: the clock when its breaker is
      consulted, the call's outcome, its measured duration, and the clock
      when a failure is recorded. */
  datatype Attempt = Attempt(checkedAt: real, outcome: ChatOutcome, elapsedMs: real, failedAt: real)

  datatype Event = Skipped(name: string) | Failed(name: string) | Succeeded(name: string)

  datatype Reply = Reply(text: string, model: string, provider: string)

  datatype FailoverError =
    | AllFailed            // the aggregate RuntimeError
    | MissingProvider(name: string)  // the KeyError of `self.providers[name]`

  datatype Failover = Failover(breaker: Breaker, trace: seq<Event>, result: Result<Reply, FailoverError>)

  /** The provider label of a reply from a candidate other than the active one. */
  function FailoverTag(name: string): string {
    name + " (failover)"
  }

  /** The reply a candidate `name` gives when its call returned `outcome`. */
  predicate ReplyFrom(reply: Reply, name: string, active: string, outcome: ChatOutcome) {
    && outcome.Replied?
    && reply.text == outcome.text && reply.model == outcome.model
    && reply.provider == (if name == active then outcome.provider else FailoverTag(name))
  }

  /** What happens to one candidate, with the breaker after it. */
  datatype Step =
    | Skip(breaker: Breaker)
    | Missing(breaker: Breaker)
    | Win(breaker: Breaker, reply: Reply)
    | Lose(breaker: Breaker)

  /** One turn of the loop. An unavailable candidate is skipped with nothing
      recorded; an available one is looked up (which fails for an unknown
      name) and called; its success is recorded and its reply tagged when it
      is not the active one, and its failure is recorded. */
  function TryCandidate(providers: map<string, Provider>, active: string, name: string,
                        a: Attempt, b: Breaker): (st: Step)
    ensures st.Skip? <==> !IsAvailable(b, name, a.checkedAt).ok
    ensures st.Skip? ==> st.breaker == IsAvailable(b, name, a.checkedAt).breaker
    ensures st.Missing? <==> IsAvailable(b, name, a.checkedAt).ok && name !in providers
    ensures st.Win? <==> IsAvailable(b, name, a.checkedAt).ok && name in providers && a.outcome.Replied?
    ensures st.Win? ==> ReplyFrom(st.reply, name, active, a.outcome)
    ensures st.Win? ==> st.breaker == RecordSuccess(IsAvailable(b, name, a.checkedAt).breaker, name, a.elapsedMs)
    ensures st.Lose? ==> st.breaker == RecordFailure(IsAvailable(b, name, a.checkedAt).breaker, name, a.elapsedMs, a.failedAt)
  {
    var check := IsAvailable(b, name, a.checkedAt);
    if !check.ok then Skip(check.breaker)
    else if name !in providers then Missing(check.breaker)
    else
      match a.outcome
      case Replied(text, model, tag) =>
        var provider := if name != active then FailoverTag(name) else tag;
        Win(RecordSuccess(check.breaker, name, a.elapsedMs), Reply(text, model, provider))
      case Raised =>
        Lose(RecordFailure(check.breaker, name, a.elapsedMs, a.failedAt))
  }

  /** One candidate's turn, as a value: `Walk` is the loop, this is its body. */
  function Candidate(providers: map<string, Provider>, active: string): (string, Attempt, Breaker) -> Step {
    (name: string, a: Attempt, b: Breaker) => TryCandidate(providers, active, name, a, b)
  }

  /** The loop over candidates `names[i..]`: skips and failures go on to the
      next candidate; a success or a failed lookup ends it; running out of
      candidates is the aggregate error. */
  function Walk(step: (string, Attempt, Breaker) -> Step, names: seq<string>, i: nat,
                env: nat -> Attempt, b: Breaker, trace: seq<Event>): (f: Failover)
    requires i <= |names|
    decreases |names| - i
  {
    if i == |names| then Failover(b, trace, Err(AllFailed))
    else
      var name := names[i];
      match step(name, env(i), b)
      case Skip(b') => Walk(step, names, i + 1, env, b', trace + [Skipped(name)])
      case Missing(b') => Failover(b', trace, Err(MissingProvider(name)))
      case Win(b', reply) => Failover(b', trace + [Succeeded(name)], Ok(reply))
      case Lose(b') => Walk(step, names, i + 1, env, b', trace + [Failed(name)])
  }

  /** `chat_with_failover`, returning the updated breaker with the outcome. */
  function ChatWithFailover(r: Registry, env: nat -> Attempt): (f: Failover)
  {
    Walk(Candidate(r.providers, r.active), AttemptOrder(r), 0, env, r.breaker, [])
  }

  function FailuresOf(trace: seq<Event>, name: string): nat {
    if |trace| == 0 then 0
    else FailuresOf(trace[..|trace| - 1], name) + (if trace[|trace| - 1] == Failed(name) then 1 else 0)
  }

  function SuccessesOf(trace: seq<Event>, name: string): nat {
    if |trace| == 0 then 0
    else SuccessesOf(trace[..|trace| - 1], name) + (if trace[|trace| - 1] == Succeeded(name) then 1 else 0)
  }

  lemma {:induction false} CountsAppend(trace: seq<Event>, e: Event, name: string)
    ensures FailuresOf(trace + [e], name) == FailuresOf(trace, name) + (if e == Failed(name) then 1 else 0)
    ensures SuccessesOf(trace + [e], name) == SuccessesOf(trace, name) + (if e == Succeeded(name) then 1 else 0)
  {
    assert (trace + [e])[..|trace|] == trace;
  }

  /** The events follow the candidates, one each, in order. */
  predicate Follows(trace: seq<Event>, names: seq<string>) {
    |trace| <= |names| && forall k :: 0 <= k < |trace| ==> trace[k].name == names[k]
  }

  /** No success among the first `m` events. */
  predicate NoSuccessBefore(trace: seq<Event>, m: int) {
    forall k :: 0 <= k < m && k < |trace| ==> !trace[k].Succeeded?
  }

  lemma {:induction false} FollowsAppend(trace: seq<Event>, e: Event, names: seq<string>)
    requires Follows(trace, names) && |trace| < |names| && e.name == names[|trace|]
    ensures Follows(trace + [e], names) && trace <= trace + [e]
  {
  }

  /** The walk only appends to the trace, one event per candidate tried. */
  lemma {:induction false} WalkExtends(step: (string, Attempt, Breaker) -> Step, names: seq<string>, i: nat,
                                       env: nat -> Attempt, b: Breaker, trace: seq<Event>)
    requires i <= |names| && |trace| == i && Follows(trace, names)
    ensures Follows(Walk(step, names, i, env, b, trace).trace, names)
    ensures trace <= Walk(step, names, i, env, b, trace).trace
    decreases |names| - i
  {
    if i < |names| {
      var name := names[i];
      match step(name, env(i), b)
      case Skip(b') =>
        FollowsAppend(trace, Skipped(name), names);
        WalkExtends(step, names, i + 1, env, b', trace + [Skipped(name)]);
      case Lose(b') =>
        FollowsAppend(trace, Failed(name), names);
        WalkExtends(step, names, i + 1, env, b', trace + [Failed(name)]);
      case Missing(_) =>
      case Win(_, _) =>
        FollowsAppend(trace, Succeeded(name), names);
    }
  }

  /** How the walk ends: everything before the last event is a skip or a
      failure; a reply means the last candidate tried succeeded; "all
      failed" means every candidate was skipped or failed; a lookup error
      names the unregistered candidate the trace stopped at. */
  lemma {:induction false} WalkTrace(step: (string, Attempt, Breaker) -> Step, names: seq<string>, i: nat,
                                     env: nat -> Attempt, b: Breaker, trace: seq<Event>)
    requires i <= |names| && |trace| == i && Follows(trace, names) && NoSuccessBefore(trace, i)
    ensures var f := Walk(step, names, i, env, b, trace);
      && Follows(f.trace, names)
      && NoSuccessBefore(f.trace, |f.trace| - 1)
      && (f.result.Ok? <==> |f.trace| > 0 && f.trace[|f.trace| - 1].Succeeded?)
      && (f.result == Err(AllFailed) ==> |f.trace| == |names| && NoSuccessBefore(f.trace, |f.trace|))
      && (f.result.Err? && f.result.error.MissingProvider? ==>
            |f.trace| < |names| && f.result.error.name == names[|f.trace|]
            && NoSuccessBefore(f.trace, |f.trace|))
    decreases |names| - i
  {
    WalkExtends(step, names, i, env, b, trace);
    if i < |names| {
      var name := names[i];
      match step(name, env(i), b)
      case Skip(b') =>
        WalkTrace(step, names, i + 1, env, b', trace + [Skipped(name)]);
      case Lose(b') =>
        WalkTrace(step, names, i + 1, env, b', trace + [Failed(name)]);
      case Missing(_) =>
      case Win(_, _) =>
    }
  }

  /** Position in the candidate list of the last candidate tried. */
  function LastTried(f: Failover): nat
    requires |f.trace| > 0
  {
    |f.trace| - 1
  }

  /** The reply is the one the candidate whose success ends the trace gave,
      and only a candidate other than the active one gets the " (failover)"
      tag. */
  lemma {:induction false} WalkReply(providers: map<string, Provider>, active: string, names: seq<string>, i: nat,
                                     env: nat -> Attempt, b: Breaker, trace: seq<Event>)
    requires i <= |names| && |trace| == i
    ensures var f := Walk(Candidate(providers, active), names, i, env, b, trace);
      f.result.Ok? ==>
        && i < |f.trace| <= |names| && names[LastTried(f)] in providers
        && ReplyFrom(f.result.value, names[LastTried(f)], active, env(LastTried(f)).outcome)
    decreases |names| - i
  {
    if i < |names| {
      var name := names[i];
      var st := TryCandidate(providers, active, name, env(i), b);
      assert Candidate(providers, active)(name, env(i), b) == st;
      match st
      case Skip(b') =>
        WalkReply(providers, active, names, i + 1, env, b', trace + [Skipped(name)]);
      case Lose(b') =>
        WalkReply(providers, active, names, i + 1, env, b', trace + [Failed(name)]);
      case Missing(_) =>
      case Win(b', reply) =>
        var f := Failover(b', trace + [Succeeded(name)], Ok(reply));
        assert Walk(Candidate(providers, active), names, i, env, b, trace) == f;
        assert LastTried(f) == i;
        WonWith(providers, active, name, env(i), b, b', reply);
    }
  }

  /** A winning turn called a registered candidate and returned its reply. */
  lemma {:induction false} WonWith(providers: map<string, Provider>, active: string, name: string,
                                   a: Attempt, b: Breaker, b': Breaker, reply: Reply)
    requires TryCandidate(providers, active, name, a, b) == Win(b', reply)
    ensures name in providers && ReplyFrom(reply, name, active, a.outcome)
  {
  }

  /** Consulting the breaker never touches the counters. */
  lemma {:induction false} CheckKeepsCounts(b: Breaker, n: string, now: real, name: string)
    ensures HealthOf(IsAvailable(b, n, now).breaker, name).errorCount == HealthOf(b, name).errorCount
    ensures HealthOf(IsAvailable(b, n, now).breaker, name).successCount == HealthOf(b, name).successCount
  {
  }

  /** What one candidate does to the counters of `name`: a failure of
      `name` adds one error, a success of `name` one success, and nothing
      else changes them. */
  lemma {:induction false} StepCounts(providers: map<string, Provider>, active: string, n: string,
                                      a: Attempt, b: Breaker, name: string)
    ensures var st := TryCandidate(providers, active, n, a, b);
      HealthOf(st.breaker, name).errorCount == HealthOf(b, name).errorCount + (if st.Lose? && n == name then 1 else 0)
    ensures var st := TryCandidate(providers, active, n, a, b);
      HealthOf(st.breaker, name).successCount == HealthOf(b, name).successCount + (if st.Win? && n == name then 1 else 0)
  {
    CheckKeepsCounts(b, n, a.checkedAt, name);
  }

  /** The breaker's books after the walk: every candidate that failed got
      exactly one failure recorded, and a skipped candidate nothing at all. */
  lemma {:induction false} WalkErrors(providers: map<string, Provider>, active: string, names: seq<string>, i: nat,
                                      env: nat -> Attempt, b: Breaker, trace: seq<Event>, name: string)
    requires i <= |names|
    ensures var f := Walk(Candidate(providers, active), names, i, env, b, trace);
      HealthOf(f.breaker, name).errorCount + FailuresOf(trace, name) == HealthOf(b, name).errorCount + FailuresOf(f.trace, name)
    decreases |names| - i
  {
    if i < |names| {
      var n := names[i];
      var st := TryCandidate(providers, active, n, env(i), b);
      assert Candidate(providers, active)(n, env(i), b) == st;
      StepCounts(providers, active, n, env(i), b, name);
      match st
      case Skip(b') =>
        CountsAppend(trace, Skipped(n), name);
        WalkErrors(providers, active, names, i + 1, env, b', trace + [Skipped(n)], name);
      case Lose(b') =>
        CountsAppend(trace, Failed(n), name);
        WalkErrors(providers, active, names, i + 1, env, b', trace + [Failed(n)], name);
      case Win(_, _) =>
        CountsAppend(trace, Succeeded(n), name);
      case Missing(_) =>
    }
  }

  /** ... and the winner exactly one success. */
  lemma {:induction false} WalkSuccesses(providers: map<string, Provider>, active: string, names: seq<string>, i: nat,
                                         env: nat -> Attempt, b: Breaker, trace: seq<Event>, name: string)
    requires i <= |names|
    ensures var f := Walk(Candidate(providers, active), names, i, env, b, trace);
      HealthOf(f.breaker, name).successCount + SuccessesOf(trace, name) == HealthOf(b, name).successCount + SuccessesOf(f.trace, name)
    decreases |names| - i
  {
    if i < |names| {
      var n := names[i];
      var st := TryCandidate(providers, active, n, env(i), b);
      assert Candidate(providers, active)(n, env(i), b) == st;
      StepCounts(providers, active, n, env(i), b, name);
      match st
      case Skip(b') =>
        CountsAppend(trace, Skipped(n), name);
        WalkSuccesses(providers, active, names, i + 1, env, b', trace + [Skipped(n)], name);
      case Lose(b') =>
        CountsAppend(trace, Failed(n), name);
        WalkSuccesses(providers, active, names, i + 1, env, b', trace + [Failed(n)], name);
      case Win(_, _) =>
        CountsAppend(trace, Succeeded(n), name);
      case Missing(_) =>
    }
  }

  /** The properties of `chat_with_failover` on a whole registry. */
  lemma {:induction false} FailoverFacts(r: Registry, env: nat -> Attempt, name: string)
    ensures var f := ChatWithFailover(r, env);
      && Follows(f.trace, AttemptOrder(r))
      && (f.result.Ok? <==> |f.trace| > 0 && f.trace[|f.trace| - 1].Succeeded?)
      && (f.result == Err(AllFailed) ==> |f.trace| == |AttemptOrder(r)| && NoSuccessBefore(f.trace, |f.trace|))
      && HealthOf(f.breaker, name).errorCount == HealthOf(r.breaker, name).errorCount + FailuresOf(f.trace, name)
      && HealthOf(f.breaker, name).successCount == HealthOf(r.breaker, name).successCount + SuccessesOf(f.trace, name)
      && (f.result.Ok? ==>
            |f.trace| > 0 && ReplyFrom(f.result.value, AttemptOrder(r)[LastTried(f)], r.active, env(LastTried(f)).outcome))
  {
    WalkTrace(Candidate(r.providers, r.active), AttemptOrder(r), 0, env, r.breaker, []);
    WalkReply(r.providers, r.active, AttemptOrder(r), 0, env, r.breaker, []);
    WalkErrors(r.providers, r.active, AttemptOrder(r), 0, env, r.breaker, [], name);
    WalkSuccesses(r.providers, r.active, AttemptOrder(r), 0, env, r.breaker, [], name);
  }

  /** In a well-formed registry with an active adapter every candidate is
      registered, so the only failure is the aggregate one. */
  lemma {:induction false} NoMissingWhenOk(r: Registry, env: nat -> Attempt)
    requires RegistryOk(r) && r.active != ""
    ensures var f := ChatWithFailover(r, env); f.result.Ok? || f.result == Err(AllFailed)
  {
    var names := AttemptOrder(r);
    assert forall k :: 0 <= k < |names| ==> names[k] in r.providers;
    WalkNoMissing(r.providers, r.active, names, 0, env, r.breaker, []);
  }

  /** Only an unregistered candidate can end the walk with a lookup error. */
  lemma {:induction false} WalkNoMissing(providers: map<string, Provider>, active: string, names: seq<string>, i: nat,
                                         env: nat -> Attempt, b: Breaker, trace: seq<Event>)
    requires i <= |names| && forall k :: i <= k < |names| ==> names[k] in providers
    ensures var f := Walk(Candidate(providers, active), names, i, env, b, trace);
      f.result.Ok? || f.result == Err(AllFailed)
    decreases |names| - i
  {
    if i < |names| {
      var name := names[i];
      match TryCandidate(providers, active, name, env(i), b)
      case Skip(b') =>
        WalkNoMissing(providers, active, names, i + 1, env, b', trace + [Skipped(name)]);
      case Lose(b') =>
        WalkNoMissing(providers, active, names, i + 1, env, b', trace + [Failed(name)]);
      case Missing(_) =>
      case Win(_, _) =>
    }
  }

  /** With nothing registered the active name is empty, the empty name is
      looked up, and the call ends in the lookup error rather than the
      aggregate error. */
  lemma {:induction false} EmptyRegistryFails(b: Breaker, env: nat -> Attempt)
    requires "" !in b.health
    ensures ChatWithFailover(EmptyRegistry(b), env).result == Err(MissingProvider(""))
  {
    assert AttemptOrder(EmptyRegistry(b)) == [""];
  }

  /** Two candidates: the first one's step decides whether the second is
      tried, and the second one's win is the walk's result. */
  lemma {:induction false} WalkTwo(step: (string, Attempt, Breaker) -> Step, x: string, y: string, env: nat -> Attempt, b: Breaker)
    requires step(x, env(0), b).Skip? || step(x, env(0), b).Lose?
    requires step(y, env(1), step(x, env(0), b).breaker).Win?
    ensures var f := Walk(step, [x, y], 0, env, b, []);
      var e := if step(x, env(0), b).Skip? then Skipped(x) else Failed(x);
      && f.trace == [e, Succeeded(y)]
      && f.result == Ok(step(y, env(1), step(x, env(0), b).breaker).reply)
      && f.breaker == step(y, env(1), step(x, env(0), b).breaker).breaker
  {
    var e := if step(x, env(0), b).Skip? then Skipped(x) else Failed(x);
    assert [e] + [Succeeded(y)] == [e, Succeeded(y)];
  }

  /** Registering `p` and then `q` makes `p` active and tries `q` second. */
  lemma {:induction false} TwoProviderOrder(b: Breaker, p: Provider, q: Provider)
    requires p.name != q.name && p.name != ""
    ensures var r := Register(Register(EmptyRegistry(b), p, false), q, false);
      r.active == p.name && AttemptOrder(r) == [p.name, q.name]
  {
    var r := Register(Register(EmptyRegistry(b), p, false), q, false);
    assert r.active == p.name && r.order == [p.name, q.name];
    assert Others([q.name], p.name) == [q.name] + Others([], p.name);
    assert Others(r.order, p.name) == [q.name];
  }

  /** Two adapters with closed circuits, the active one raising and the
      other answering: the answer comes from the second, tagged as a
      failover, after one failure and one success were recorded. */
  lemma {:induction false} FailoverToSecond(b: Breaker, p: Provider, q: Provider, env: nat -> Attempt)
    requires p.name != q.name && p.name != ""
    requires HealthOf(b, p.name).state == Closed && HealthOf(b, q.name).state == Closed
    requires env(0).outcome == Raised && env(1).outcome.Replied?
    ensures var r := Register(Register(EmptyRegistry(b), p, false), q, false);
      var f := ChatWithFailover(r, env);
      && f.trace == [Failed(p.name), Succeeded(q.name)]
      && f.result == Ok(Reply(env(1).outcome.text, env(1).outcome.model, q.name + " (failover)"))
  {
    var r := Register(Register(EmptyRegistry(b), p, false), q, false);
    TwoProviderOrder(b, p, q);
    var step := Candidate(r.providers, r.active);
    var s0 := TryCandidate(r.providers, p.name, p.name, env(0), b);
    assert s0.Lose?;
    assert HealthOf(s0.breaker, q.name) == HealthOf(b, q.name);
    var s1 := TryCandidate(r.providers, p.name, q.name, env(1), s0.breaker);
    assert step(p.name, env(0), b) == s0 && step(q.name, env(1), s0.breaker) == s1;
    WalkTwo(step, p.name, q.name, env, b);
  }

  /** An adapter whose circuit is open and still cooling down is skipped:
      nothing is recorded against it and the next one answers. */
  lemma {:induction false} OpenCircuitSkipped(b: Breaker, p: Provider, q: Provider, env: nat -> Attempt)
    requires p.name != q.name && p.name != ""
    requires HealthOf(b, p.name).state == Open && env(0).checkedAt - HealthOf(b, p.name).trippedAt < b.recovery
    requires HealthOf(b, q.name).state == Closed && env(1).outcome.Replied?
    ensures var r := Register(Register(EmptyRegistry(b), p, false), q, false);
      var f := ChatWithFailover(r, env);
      && f.trace == [Skipped(p.name), Succeeded(q.name)]
      && f.result.Ok? && f.result.value.provider == q.name + " (failover)"
      && HealthOf(f.breaker, p.name).errorCount == HealthOf(b, p.name).errorCount
  {
    var r := Register(Register(EmptyRegistry(b), p, false), q, false);
    TwoProviderOrder(b, p, q);
    var step := Candidate(r.providers, r.active);
    var s0 := TryCandidate(r.providers, p.name, p.name, env(0), b);
    assert s0.Skip?;
    assert HealthOf(s0.breaker, q.name) == HealthOf(b, q.name);
    assert HealthOf(s0.breaker, p.name).errorCount == HealthOf(b, p.name).errorCount;
    var s1 := TryCandidate(r.providers, p.name, q.name, env(1), s0.breaker);
    assert step(p.name, env(0), b) == s0 && step(q.name, env(1), s0.breaker) == s1;
    WalkTwo(step, p.name, q.name, env, b);
  }
}
