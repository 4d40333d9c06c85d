/** The put state machine and every history it can reach. */
module PutState {
  import opened Basics
  import opened Ordering

  datatype PutState = New | Uploading | Verifying | Committed | Aborted | OrphanCandidate

  function NameOf(s: PutState): string {
    match s
    case New => "NEW"
    case Uploading => "UPLOADING"
    case Verifying => "VERIFYING"
    case Committed => "COMMITTED"
    case Aborted => "ABORTED"
    case OrphanCandidate => "ORPHAN_CANDIDATE"
  }

  /** `PutState(value)`: no state when the text names none. */
  function Parse(name: string): Option<PutState> {
    if name == NameOf(New) then Some(New)
    else if name == NameOf(Uploading) then Some(Uploading)
    else if name == NameOf(Verifying) then Some(Verifying)
    else if name == NameOf(Committed) then Some(Committed)
    else if name == NameOf(Aborted) then Some(Aborted)
    else if name == NameOf(OrphanCandidate) then Some(OrphanCandidate)
    else None
  }

  /** The transition table. */
  function Successors(s: PutState): set<PutState> {
    match s
    case New => {Uploading, Aborted}
    case Uploading => {Verifying, Aborted, OrphanCandidate}
    case Verifying => {Committed, Aborted, OrphanCandidate}
    case Committed => {}
    case Aborted => {}
    case OrphanCandidate => {}
  }

  datatype Call = Transition(name: string) | Fail(physicalCommitPossible: bool)

  function Target(call: Call): Option<PutState> {
    match call
    case Transition(name) => Parse(name)
    case Fail(possible) => Some(if possible then OrphanCandidate else Aborted)
  }

  predicate Permitted(history: seq<PutState>, call: Call)
    requires history != []
  {
    Target(call).Some? && Target(call).value in Successors(history[|history| - 1])
  }

  /** The history after a call; a rejected call changes nothing. */
  function Apply(history: seq<PutState>, call: Call): (r: seq<PutState>)
    requires history != []
    ensures r != []
  {
    if Permitted(history, call) then history + [Target(call).value] else history
  }

  function Run(calls: seq<Call>): (r: seq<PutState>)
    ensures r != []
  {
    if calls == [] then [New] else Apply(Run(calls[..|calls| - 1]), calls[|calls| - 1])
  }

  /** A path of the transition table that starts in NEW. */
  ghost predicate IsPath(h: seq<PutState>) {
    h != [] && h[0] == New && forall i :: 0 < i < |h| ==> h[i] in Successors(h[i - 1])
  }

  datatype TransitionError = UnknownState | InvalidTransition

  class PutStateMachine {
    var state: PutState
    var history: seq<PutState>

    ghost predicate Valid()
      reads this
    {
      IsPath(history) && state == history[|history| - 1]
    }

    constructor ()
      ensures Valid() && history == Run([])
    {
      state := New;
      history := [New];
    }

    method Transition(name: string) returns (r: Result<PutState, TransitionError>)
      requires Valid()
      modifies this
      ensures Valid() && history == Apply(old(history), Call.Transition(name))
      ensures r == if Parse(name).None? then Failure(UnknownState)
                   else if Permitted(old(history), Call.Transition(name)) then Success(state)
                   else Failure(InvalidTransition)
      ensures r.Success? ==> NameOf(r.value) == name && history == old(history) + [r.value] && state == r.value
      ensures r.Failure? ==> history == old(history) && state == old(state)
    {
      ParsedName(name);
      var requested := Parse(name);
      if requested.None? {
        return Failure(UnknownState);
      }
      if requested.value !in Successors(state) {
        return Failure(InvalidTransition);
      }
      state := requested.value;
      history := history + [requested.value];
      return Success(requested.value);
    }

    method Fail(physicalCommitPossible: bool) returns (r: Result<PutState, TransitionError>)
      requires Valid()
      modifies this
      ensures Valid() && history == Apply(old(history), Call.Fail(physicalCommitPossible))
      ensures r == if Permitted(old(history), Call.Fail(physicalCommitPossible)) then Success(state)
                   else Failure(InvalidTransition)
      ensures r.Success? ==>
                && r.value == (if physicalCommitPossible then OrphanCandidate else Aborted)
                && state == r.value && history == old(history) + [r.value]
      ensures r.Failure? ==> history == old(history) && state == old(state)
    {
      var target := if physicalCommitPossible then OrphanCandidate else Aborted;
      NamesParse(target);
      r := Transition(NameOf(target));
    }
  }

  lemma ParsedName(name: string)
    ensures Parse(name).Some? ==> NameOf(Parse(name).value) == name
  {
  }

  /** The six states and their names. */
  lemma StatesAreNamed()
    ensures Parse("NEW") == Some(New) && Parse("UPLOADING") == Some(Uploading) && Parse("VERIFYING") == Some(Verifying)
    ensures Parse("COMMITTED") == Some(Committed) && Parse("ABORTED") == Some(Aborted)
    ensures Parse("ORPHAN_CANDIDATE") == Some(OrphanCandidate)
  {
    NamesParse(New);
    NamesParse(Uploading);
    NamesParse(Verifying);
    NamesParse(Committed);
    NamesParse(Aborted);
    NamesParse(OrphanCandidate);
  }

  lemma NamesParse(s: PutState)
    ensures Parse(NameOf(s)) == Some(s)
  {
    assert NameOf(New)[0] == 'N' && NameOf(Uploading)[0] == 'U' && NameOf(Verifying)[0] == 'V';
    assert NameOf(Committed)[0] == 'C' && NameOf(Aborted)[0] == 'A' && NameOf(OrphanCandidate)[0] == 'O';
  }

  // ---- Reachable histories ----

  lemma {:induction false} RunsArePaths(calls: seq<Call>)
    ensures IsPath(Run(calls))
  {
    if calls != [] {
      RunsArePaths(calls[..|calls| - 1]);
    }
  }

  lemma {:induction false} PathsAreRuns(h: seq<PutState>) returns (calls: seq<Call>)
    requires IsPath(h)
    ensures Run(calls) == h
  {
    var n := |h| - 1;
    if n == 0 {
      calls := [];
    } else {
      assert IsPath(h[..n]);
      calls := PathsAreRuns(h[..n]);
      NamesParse(h[n]);
      assert h == h[..n] + [h[n]];
      var last := Call.Transition(NameOf(h[n]));
      assert (calls + [last])[..|calls|] == calls;
      calls := calls + [last];
    }
  }

  const HISTORIES: set<seq<PutState>> := {
    [New],
    [New, Aborted],
    [New, Uploading],
    [New, Uploading, Aborted],
    [New, Uploading, OrphanCandidate],
    [New, Uploading, Verifying],
    [New, Uploading, Verifying, Aborted],
    [New, Uploading, Verifying, OrphanCandidate],
    [New, Uploading, Verifying, Committed]
  }

  /** A path visits UPLOADING and VERIFYING in that order, and leaves them only to end. */
  lemma PathShape(h: seq<PutState>)
    requires IsPath(h)
    ensures |h| <= 4
    ensures |h| > 1 ==> h[1] in {Uploading, Aborted}
    ensures |h| > 2 ==> h[1] == Uploading && h[2] in {Verifying, Aborted, OrphanCandidate}
    ensures |h| > 3 ==> h[2] == Verifying && h[3] in {Committed, Aborted, OrphanCandidate}
  {
    assert |h| > 1 ==> h[1] in Successors(h[0]);
    assert |h| > 2 ==> h[2] in Successors(h[1]);
    assert |h| > 3 ==> h[3] in Successors(h[2]);
    assert |h| > 4 ==> h[4] in Successors(h[3]);
  }

  lemma PathsAreListed(h: seq<PutState>)
    ensures IsPath(h) <==> h in HISTORIES
  {
    if IsPath(h) {
      PathShape(h);
      if |h| == 1 { assert h == [New]; }
      else if |h| == 2 { assert h == [New, h[1]]; }
      else if |h| == 3 { assert h == [New, Uploading, h[2]]; }
      else { assert h == [New, Uploading, Verifying, h[3]]; }
    }
  }

  /** Over every run of `transition` and `fail`, rejected calls included, exactly these nine histories
      are reachable. */
  lemma ReachableHistories(h: seq<PutState>)
    ensures (exists calls :: Run(calls) == h) <==> h in HISTORIES
  {
    PathsAreListed(h);
    if calls :| Run(calls) == h {
      RunsArePaths(calls);
    }
    if IsPath(h) {
      var calls := PathsAreRuns(h);
    }
  }

  /** No run visits a state twice or takes more than four states; COMMITTED is reached one way only;
      an orphan candidate never directly follows NEW. */
  lemma EveryRun(calls: seq<Call>)
    ensures var h := Run(calls);
            && |h| <= 4 && Distinct(h)
            && (Committed in h ==> h == [New, Uploading, Verifying, Committed])
            && (forall i :: 0 < i < |h| && h[i] == OrphanCandidate ==> h[i - 1] in {Uploading, Verifying})
  {
    RunsArePaths(calls);
    PathShape(Run(calls));
    var h := Run(calls);
    if Committed in h {
      assert h == [New, Uploading, Verifying, Committed];
    }
  }

  lemma {:induction false} TerminalStatesAbsorb(before: seq<Call>, after: seq<Call>)
    requires Successors(Run(before)[|Run(before)| - 1]) == {}
    ensures Run(before + after) == Run(before)
  {
    if after == [] {
      assert before + after == before;
    } else {
      var n := |after| - 1;
      TerminalStatesAbsorb(before, after[..n]);
      assert (before + after)[..|before + after| - 1] == before + after[..n];
    }
  }
}
