/** Threads opening and releasing handles: every interleaving of the two critical sections of `open`. */
module RegistryProtocol {
  import opened Basics
  import opened Validation
  import opened Handles
  import opened Transfers
  import opened Payloads
  import Base64Url

  type Thread = nat

  /** One critical section, executed by one thread. `makes` says whether a call into the source that its
      latch lets through produces a stream: a factory may raise, or return something else. */
  datatype Step =
    | Register(token: string, source: Source)
    | Release(token: string)
    | BeginOpen(thread: Thread, token: string, claimed: bool)
    | EnterSource(thread: Thread, makes: bool)
    | EnterDirectly(source: Source, makes: bool)

  /** `holding` maps a thread between its two critical sections to the source it found; `used` is the set
      of latched sources. Of each source, `entries` counts the calls into it, `grants` those its latch let
      through, `streams` the streams it gave out, and `failures` the calls let through that gave none. */
  datatype State = State(
    sources: map<string, Source>,
    holding: map<Thread, Source>,
    used: set<Source>,
    entries: map<Source, nat>,
    grants: map<Source, nat>,
    streams: map<Source, nat>,
    failures: map<Source, nat>,
    registered: nat,
    released: nat,
    popped: nat)

  const START := State(map[], map[], {}, map[], map[], map[], map[], 0, 0, 0)

  function CountAt(m: map<Source, nat>, id: Source): nat {
    if id in m then m[id] else 0
  }

  function Counted(m: map<Source, nat>, id: Source, yes: bool): map<Source, nat> {
    if yes then m[id := CountAt(m, id) + 1] else m
  }

  /** A call into a source: its latch decides whether the call goes through. */
  function Enter(s: State, source: Source, makes: bool): State {
    var granted := Grants(IsReplayable(source), source in s.used);
    s.(used := s.used + {source},
       entries := Counted(s.entries, source, true),
       grants := Counted(s.grants, source, granted),
       streams := Counted(s.streams, source, granted && makes),
       failures := Counted(s.failures, source, granted && !makes))
  }

  function Apply(s: State, step: Step): State {
    match step
    case Register(token, source) => s.(sources := s.sources[token := source], registered := s.registered + 1)
    case Release(token) =>
      if token in s.sources then s.(sources := s.sources - {token}, released := s.released + 1) else s
    case BeginOpen(thread, token, claimed) =>
      var found := LookUp(s.sources, IsReplayable, token, claimed);
      if thread in s.holding || !found.Found? then s
      else
        s.(sources := found.remaining, holding := s.holding[thread := found.source],
           popped := s.popped + if claimed then 0 else 1)
    case EnterSource(thread, makes) =>
      if thread !in s.holding then s
      else Enter(s, s.holding[thread], makes).(holding := s.holding - {thread})
    case EnterDirectly(source, makes) => Enter(s, source, makes)
  }

  function Run(steps: seq<Step>): State {
    if steps == [] then START else Apply(Run(steps[..|steps| - 1]), steps[|steps| - 1])
  }

  // ---- At most one stream ----

  /** The counts of one source agree with its latch and with each other. */
  ghost predicate CountsAgree(s: State, id: Source) {
    && (id in s.used <==> CountAt(s.entries, id) > 0)
    && CountAt(s.grants, id) == (if IsReplayable(id) then CountAt(s.entries, id) else if id in s.used then 1 else 0)
    && CountAt(s.streams, id) + CountAt(s.failures, id) == CountAt(s.grants, id)
  }

  lemma EnterKeepsCounts(s: State, source: Source, makes: bool, id: Source)
    requires CountsAgree(s, id)
    ensures CountsAgree(Enter(s, source, makes), id)
  {
  }

  lemma {:induction false} CountsHold(steps: seq<Step>, id: Source)
    ensures CountsAgree(Run(steps), id)
  {
    if steps != [] {
      var before := Run(steps[..|steps| - 1]);
      CountsHold(steps[..|steps| - 1], id);
      match steps[|steps| - 1]
      case EnterSource(thread, makes) =>
        if thread in before.holding { EnterKeepsCounts(before, before.holding[thread], makes, id); }
      case EnterDirectly(source, makes) => EnterKeepsCounts(before, source, makes, id);
      case _ =>
    }
  }

  /** Under any interleaving, over any number of tokens, a one-shot source lets exactly its first caller
      through, and a replayable one every caller. Each call let through gives a stream or fails; so a
      one-shot source streams at most once, and not at all once its one call has failed. */
  lemma OneShotStreamsOnce(steps: seq<Step>, id: Source)
    ensures var s := Run(steps);
            && CountAt(s.grants, id) ==
                 (if IsReplayable(id) || CountAt(s.entries, id) == 0 then CountAt(s.entries, id) else 1)
            && CountAt(s.streams, id) == CountAt(s.grants, id) - CountAt(s.failures, id)
            && (!IsReplayable(id) ==> CountAt(s.streams, id) + CountAt(s.failures, id) <= 1)
  {
    CountsHold(steps, id);
  }

  // ---- Size ----

  ghost predicate RegisteredIn(steps: seq<Step>, token: string) {
    exists i :: 0 <= i < |steps| && steps[i].Register? && steps[i].token == token
  }

  /** No token is minted twice. */
  ghost predicate FreshTokens(steps: seq<Step>) {
    forall n :: 0 <= n < |steps| && steps[n].Register? ==> !RegisteredIn(steps[..n], steps[n].token)
  }

  lemma {:induction false} TokensWereRegistered(steps: seq<Step>, token: string)
    requires token in Run(steps).sources
    ensures RegisteredIn(steps, token)
  {
    var n := |steps| - 1;
    var before := Run(steps[..n]);
    if token in before.sources {
      TokensWereRegistered(steps[..n], token);
      var i :| 0 <= i < n && steps[..n][i].Register? && steps[..n][i].token == token;
      assert steps[i].Register? && steps[i].token == token;
    } else {
      assert steps[n].Register? && steps[n].token == token;
    }
  }

  lemma RemovalShrinks(m: map<string, Source>, token: string)
    requires token in m
    ensures |m - {token}| == |m| - 1
  {
    assert (m - {token}).Keys == m.Keys - {token};
  }

  lemma AdditionGrows(m: map<string, Source>, token: string, id: Source)
    requires token !in m
    ensures |m[token := id]| == |m| + 1
  {
    assert m[token := id].Keys == m.Keys + {token};
  }

  /** What was registered and neither released nor taken out, less what is there. */
  function Missing(s: State): int {
    s.registered - s.released - s.popped - |s.sources|
  }

  lemma RegisterKeepsCount(s: State, token: string, source: Source)
    requires token !in s.sources
    ensures Missing(Apply(s, Register(token, source))) == Missing(s)
  {
    AdditionGrows(s.sources, token, source);
  }

  lemma ReleaseKeepsCount(s: State, token: string)
    ensures Missing(Apply(s, Release(token))) == Missing(s)
  {
    if token in s.sources { RemovalShrinks(s.sources, token); }
  }

  lemma BeginOpenKeepsCount(s: State, thread: Thread, token: string, claimed: bool)
    ensures Missing(Apply(s, BeginOpen(thread, token, claimed))) == Missing(s)
  {
    if token in s.sources { RemovalShrinks(s.sources, token); }
  }

  lemma EnterKeepsCount(s: State, step: Step)
    requires step.EnterSource? || step.EnterDirectly?
    ensures Missing(Apply(s, step)) == Missing(s)
  {
  }

  lemma StepKeepsCount(s: State, step: Step)
    requires step.Register? ==> step.token !in s.sources
    ensures Missing(Apply(s, step)) == Missing(s)
  {
    match step
    case Register(token, source) => RegisterKeepsCount(s, token, source);
    case Release(token) => ReleaseKeepsCount(s, token);
    case BeginOpen(thread, token, claimed) => BeginOpenKeepsCount(s, thread, token, claimed);
    case _ => EnterKeepsCount(s, step);
  }

  /** With tokens that never repeat, the registry holds exactly what was registered and neither released
      nor taken out by a one-shot open. */
  lemma {:induction false} RegistrySize(steps: seq<Step>)
    requires FreshTokens(steps)
    ensures var s := Run(steps); |s.sources| == s.registered - s.released - s.popped
  {
    if steps != [] {
      var n := |steps| - 1;
      assert FreshTokens(steps[..n]) by {
        forall m | 0 <= m < n && steps[..n][m].Register? ensures !RegisteredIn(steps[..n][..m], steps[..n][m].token) {
          assert steps[..n][..m] == steps[..m];
        }
      }
      RegistrySize(steps[..n]);
      var before := Run(steps[..n]);
      if steps[n].Register? && steps[n].token in before.sources {
        TokensWereRegistered(steps[..n], steps[n].token);
      }
      StepKeepsCount(before, steps[n]);
    }
  }

  // ---- The registry runs the protocol ----

  /** The object that holds a source's latch. */
  function LatchOf(source: Source): set<object> {
    match source
    case FromStream(s) => {s}
    case FromFactory(f) => {f}
  }

  ghost predicate Latched(source: Source)
    reads LatchOf(source)
  {
    match source
    case FromStream(s) => s.consumed
    case FromFactory(f) => f.used
  }

  /** The registry and the latches of the known sources are what the protocol state says. */
  ghost predicate StandsFor(registry: PayloadRegistry, s: State, known: set<Source>)
    reads registry, set x, o | x in known && o in LatchOf(x) :: o
  {
    && registry.sources == s.sources
    && (forall token :: token in s.sources ==> s.sources[token] in known)
    && forall x :: x in known ==> (x in s.used <==> Latched(x))
  }

  /** Registering is one step of the protocol, or none when the expectations are ill formed. */
  method RegisterStep(registry: PayloadRegistry, source: Source, random: seq<byte>, expectedLength: Option<int>,
                      expectedDigest: Option<string>, ghost s: State, ghost known: set<Source>)
    returns (r: Option<PayloadReference>, ghost after: State)
    requires |random| == Base64Url.TOKEN_BYTES && StandsFor(registry, s, known) && source in known
    modifies registry
    ensures after == if r.Some? then Apply(s, Register(r.value.token, source)) else s
    ensures StandsFor(registry, after, known)
  {
    r := registry.Register(source, random, expectedLength, expectedDigest);
    after := if r.Some? then Apply(s, Register(r.value.token, source)) else s;
  }

  /** Releasing is one step of the protocol, or none when the token is ill formed. */
  method ReleaseStep(registry: PayloadRegistry, token: string, ghost s: State, ghost known: set<Source>)
    returns (r: Option<bool>, ghost after: State)
    requires StandsFor(registry, s, known)
    modifies registry
    ensures after == if IsToken(token) then Apply(s, Release(token)) else s
    ensures StandsFor(registry, after, known)
    ensures r == if IsToken(token) then Some(after.released > s.released) else None
  {
    r := registry.Release(token);
    after := if IsToken(token) then Apply(s, Release(token)) else s;
  }

  /** What the two steps of an undisturbed open come to. */
  lemma TwoSteps(s: State, thread: Thread, token: string, claimed: bool, makes: bool)
    requires thread !in s.holding
    ensures var found := LookUp(s.sources, IsReplayable, token, claimed);
            var between := Apply(s, BeginOpen(thread, token, claimed));
            var after := Apply(between, EnterSource(thread, makes));
            if !found.Found? then after == s
            else
              && thread in between.holding && between.holding[thread] == found.source
              && after.sources == found.remaining && after.used == s.used + {found.source}
              && after.streams ==
                   Counted(s.streams, found.source, Grants(IsReplayable(found.source), found.source in s.used) && makes)
  {
  }

  ghost function Latches(known: set<Source>): set<Source>
    reads set x, o | x in known && o in LatchOf(x) :: o
  {
    set x | x in known && Latched(x)
  }

  /** Opening sets the latch of the source found, if any, and no other. */
  method OpenKnown(registry: PayloadRegistry, reference: PayloadReference, ghost known: set<Source>)
    returns (r: Result<Opened, Failed>)
    requires forall token :: token in registry.sources ==> registry.sources[token] in known
    modifies registry, registry.Footprint(reference.token)
    ensures var found := LookUp(old(registry.sources), IsReplayable, reference.token, reference.replayable);
            && registry.sources == Remaining(old(registry.sources), found)
            && Latches(known) == old(Latches(known)) + (if found.Found? then {found.source} else {})
            && (r.Success? ==>
                  found.Found? && Grants(IsReplayable(found.source), found.source in old(Latches(known))))
  {
    r := registry.Open(reference);
  }

  /** Opening is two steps of the protocol by one thread, with nobody in between; it yields a stream exactly
      when the protocol counts one. */
  method OpenSteps(registry: PayloadRegistry, reference: PayloadReference, ghost s: State, ghost thread: Thread,
                   ghost known: set<Source>)
    returns (r: Result<Opened, Failed>, ghost between: State, ghost after: State)
    requires StandsFor(registry, s, known) && thread !in s.holding
    modifies registry, registry.Footprint(reference.token)
    ensures between == Apply(s, BeginOpen(thread, reference.token, reference.replayable))
    ensures after == Apply(between, EnterSource(thread, r.Success?))
    ensures StandsFor(registry, after, known)
    ensures r.Success? ==>
              thread in between.holding
              && CountAt(after.streams, between.holding[thread]) == CountAt(s.streams, between.holding[thread]) + 1
    ensures r.Failure? ==> after.streams == s.streams
  {
    ghost var latches := Latches(known);
    assert forall x :: x in known ==> (x in s.used <==> x in latches);
    r := OpenKnown(registry, reference, known);
    TwoSteps(s, thread, reference.token, reference.replayable, r.Success?);
    between := Apply(s, BeginOpen(thread, reference.token, reference.replayable));
    after := Apply(between, EnterSource(thread, r.Success?));
    assert forall x :: x in known ==> (Latched(x) <==> x in Latches(known));
  }
}
