/** Waiting for a merge to land, inside a deadline. */
module Waiter {
  import opened Outcomes

  datatype Verdict = Landed | Blocked | Failed | Unattributed | Pending

  datatype Probe = GitAncestry | MergeStatus

  /** What git says; an error means it could not answer this round. */
  datatype GitReply = IsAncestor | NotAncestor | GitError(message: string)

  /** What the merge queue says. `state` is None when it is missing or no text. */
  datatype QueueReply = Status(state: Option<string>, detail: string) | QueueError(message: string)

  /** What one round would meet: the answers and how long each takes. */
  datatype Round = Round(git: GitReply, gitSeconds: real, queue: QueueReply, queueSeconds: real) {
    /** The queue is asked only when git does not confirm. */
    predicate AsksQueue() {
      !git.IsAncestor?
    }

    function Seconds(): real {
      gitSeconds + if AsksQueue() then queueSeconds else 0.0
    }

    function Answer(): Option<QueueReply> {
      if AsksQueue() && queue.Status? then Some(queue) else None
    }

    function Error(p: Probe): Option<string> {
      match p
      case GitAncestry => if git.GitError? then Some(git.message) else None
      case MergeStatus => if AsksQueue() && queue.QueueError? then Some(queue.message) else None
    }
  }

  datatype Outcome = Outcome(verdict: Verdict, source: Option<Probe>, status: Option<QueueReply>,
                             errors: map<Probe, string>, polls: nat, elapsed: real)

  // ---- one round ----

  function TerminalVerdict(state: string): Option<Verdict> {
    if state == "done" then Some(Landed)
    else if state == "conflict" || state == "blocked" then Some(Blocked)
    else if state == "abandoned" || state == "superseded" then Some(Failed)
    else None
  }

  function Classify(state: Option<string>, attributed: bool): Option<Verdict> {
    if state.None? || TerminalVerdict(state.value).None? then None
    else if attributed then TerminalVerdict(state.value) else Some(Unattributed)
  }

  function RoundVerdict(r: Round, attributed: bool): Option<Verdict> {
    if r.git.IsAncestor? then Some(Landed)
    else if r.queue.QueueError? then None
    else Classify(r.queue.state, attributed)
  }

  function RoundSource(r: Round, attributed: bool): Option<Probe> {
    if r.git.IsAncestor? then Some(GitAncestry)
    else if RoundVerdict(r, attributed).Some? then Some(MergeStatus) else None
  }

  // ---- the timetable ----

  /** The rounds a wait would meet, by number. */
  type World = nat -> Round

  datatype Plan = Plan(attributed: bool, budget: real, interval: real)

  function Min(a: real, b: real): real {
    if a <= b then a else b
  }

  function Max(a: real, b: real): real {
    if a <= b then b else a
  }

  /** When round `k` starts, counted from the start of the wait. */
  function Start(w: World, p: Plan, k: nat): real
    decreases k, 0
  {
    if k == 0 then 0.0 else End(w, p, k - 1) + Min(p.interval, p.budget - End(w, p, k - 1))
  }

  function End(w: World, p: Plan, k: nat): real
    decreases k, 1
  {
    Start(w, p, k) + w(k).Seconds()
  }

  /** Round `k` ends the wait: a terminal answer, or the budget is spent. */
  predicate Ends(w: World, p: Plan, k: nat) {
    RoundVerdict(w(k), p.attributed).Some? || End(w, p, k) >= p.budget
  }

  ghost predicate GoesOn(w: World, p: Plan, n: nat) {
    forall k: nat :: k < n ==> !Ends(w, p, k)
  }

  /** The wait ends with round `k` and not before. */
  ghost predicate IsLast(w: World, p: Plan, k: nat) {
    Ends(w, p, k) && GoesOn(w, p, k)
  }

  ghost predicate TakesTime(w: World) {
    forall k: nat :: w(k).gitSeconds >= 0.0 && w(k).queueSeconds >= 0.0
  }

  predicate Sensible(p: Plan) {
    p.budget >= 0.0 && p.interval > 0.0
  }

  /** No round starts after the budget, and rounds are a whole interval apart
      except for the one that lands on it. */
  lemma {:induction false} StartInBudget(w: World, p: Plan, k: nat)
    requires Sensible(p) && TakesTime(w) && GoesOn(w, p, k)
    ensures 0.0 <= Start(w, p, k) <= p.budget
    ensures Start(w, p, k) == p.budget || k as real * p.interval <= Start(w, p, k)
  {
    if k == 0 {
    } else {
      StartInBudget(w, p, k - 1);
      assert !Ends(w, p, k - 1);
      assert w(k - 1).Seconds() >= 0.0;
      assert k as real * p.interval == (k - 1) as real * p.interval + p.interval;
    }
  }

  /** Round `k` is begun only while `k - 1` whole intervals are under budget. */
  lemma StartedEarly(w: World, p: Plan, k: nat)
    requires Sensible(p) && TakesTime(w) && GoesOn(w, p, k) && k > 0
    ensures (k - 1) as real * p.interval < p.budget
  {
    StartInBudget(w, p, k - 1);
    assert !Ends(w, p, k - 1);
    assert w(k - 1).Seconds() >= 0.0;
  }

  function Ceil(x: real): (n: int)
    ensures x <= n as real < x + 1.0
  {
    -((-x).Floor)
  }

  /** The greatest number of rounds. */
  function MaxPolls(p: Plan): int
    requires Sensible(p)
  {
    Ceil(p.budget / p.interval) + 1
  }

  lemma UnderCeil(k: int, budget: real, interval: real)
    requires interval > 0.0
    ensures k as real * interval < budget <==> k < Ceil(budget / interval)
  {
    var q := budget / interval;
    assert q * interval == budget;
    if k as real < q {
      assert (q - k as real) * interval > 0.0;
    } else {
      assert (k as real - q) * interval >= 0.0;
    }
  }

  lemma PollsBounded(w: World, p: Plan, k: nat)
    requires Sensible(p) && TakesTime(w) && GoesOn(w, p, k)
    ensures k + 1 <= MaxPolls(p)
  {
    if k > 0 {
      StartedEarly(w, p, k);
      UnderCeil(k - 1, p.budget, p.interval);
    } else {
      assert p.budget / p.interval >= 0.0;
    }
  }

  // ---- the loop ----

  /** The last reply, if any, of the first `n` rounds. */
  function LastReply(w: World, n: nat): Option<QueueReply> {
    if n == 0 then None else if w(n - 1).Answer().Some? then w(n - 1).Answer() else LastReply(w, n - 1)
  }

  /** The last error, if any, of a probe in the first `n` rounds. */
  function LastError(w: World, probe: Probe, n: nat): Option<string> {
    if n == 0 then None else if w(n - 1).Error(probe).Some? then w(n - 1).Error(probe) else LastError(w, probe, n - 1)
  }

  ghost predicate ErrorsAre(errors: map<Probe, string>, w: World, n: nat) {
    forall probe :: LastError(w, probe, n) == if probe in errors then Some(errors[probe]) else None
  }

  function NoteError(errors: map<Probe, string>, probe: Probe, error: Option<string>): map<Probe, string> {
    if error.Some? then errors[probe := error.value] else errors
  }

  /** Git does not confirm, and the queue's state is one of these. */
  predicate SaysOneOf(r: Round, states: set<string>) {
    !r.git.IsAncestor? && r.queue.Status? && r.queue.state.Some? && r.queue.state.value in states
  }

  /** The reply of round `k`, asked because git did not confirm. */
  predicate Replied(w: World, k: nat, q: QueueReply) {
    !w(k).git.IsAncestor? && w(k).queue == q && q.Status?
  }

  /** What is kept is the reply of the last round that had one. */
  lemma {:induction false} LastReplyIff(w: World, n: nat, q: QueueReply)
    ensures LastReply(w, n) == Some(q) <==>
            exists k: nat ::
              k < n && Replied(w, k, q) && forall j: nat, other :: k < j < n ==> !Replied(w, j, other)
  {
    if n == 0 {
    } else if w(n - 1).Answer().Some? {
      assert Replied(w, n - 1, w(n - 1).queue);
      if LastReply(w, n) == Some(q) {
        assert Replied(w, n - 1, q);
      }
    } else {
      LastReplyIff(w, n - 1, q);
      var last: nat := n - 1;
      assert forall other :: !Replied(w, last, other);
    }
  }

  /** The probe could not answer in round `k`. */
  predicate Failing(w: World, probe: Probe, k: nat, message: string) {
    if probe.GitAncestry? then w(k).git == GitError(message)
    else !w(k).git.IsAncestor? && w(k).queue == QueueError(message)
  }

  lemma {:induction false} LastErrorIff(w: World, probe: Probe, n: nat, message: string)
    ensures LastError(w, probe, n) == Some(message) <==>
            exists k: nat ::
              && k < n && Failing(w, probe, k, message)
              && forall j: nat, other :: k < j < n ==> !Failing(w, probe, j, other)
  {
    if n == 0 {
    } else if w(n - 1).Error(probe).Some? {
      assert Failing(w, probe, n - 1, w(n - 1).Error(probe).value);
      if LastError(w, probe, n) == Some(message) {
        assert Failing(w, probe, n - 1, message);
      }
    } else {
      LastErrorIff(w, probe, n - 1, message);
      var last: nat := n - 1;
      assert forall other :: !Failing(w, probe, last, other);
    }
  }

  /** What the wait reports, for whatever the probes answer and however long
      they take. */
  method AwaitLanding(w: World, p: Plan) returns (o: Outcome)
    requires Sensible(p) && TakesTime(w)
    ensures 0 < o.polls <= MaxPolls(p)
    ensures IsLast(w, p, o.polls - 1) && o.elapsed == End(w, p, o.polls - 1)
    ensures Start(w, p, o.polls - 1) <= p.budget
    ensures var last := RoundVerdict(w(o.polls - 1), p.attributed);
            o.verdict == if last.Some? then last.value else Pending
    ensures o.source == RoundSource(w(o.polls - 1), p.attributed)
    ensures o.verdict.Pending? <==> o.source.None?
    ensures o.verdict.Pending? ==> o.elapsed >= p.budget
    ensures o.verdict.Landed? <==>
              w(o.polls - 1).git.IsAncestor? || (p.attributed && SaysOneOf(w(o.polls - 1), {"done"}))
    ensures var r := w(o.polls - 1);
            && (o.verdict.Blocked? <==> p.attributed && SaysOneOf(r, {"conflict", "blocked"}))
            && (o.verdict.Failed? <==> p.attributed && SaysOneOf(r, {"abandoned", "superseded"}))
            && (o.verdict.Unattributed? <==>
                !p.attributed && SaysOneOf(r, {"done", "conflict", "blocked", "abandoned", "superseded"}))
    ensures o.source == Some(GitAncestry) <==> w(o.polls - 1).git.IsAncestor?
    ensures o.status == LastReply(w, o.polls) && ErrorsAre(o.errors, w, o.polls)
  {
    var now, polls, status, errors := 0.0, 0, None, map[];
    while true
      invariant 0 <= polls && GoesOn(w, p, polls) && now == Start(w, p, polls)
      invariant status == LastReply(w, polls) && ErrorsAre(errors, w, polls)
      decreases MaxPolls(p) - polls
    {
      PollsBounded(w, p, polls);
      StartInBudget(w, p, polls);
      var round := w(polls);
      now := now + round.Seconds();
      polls := polls + 1;
      status := if round.Answer().Some? then round.Answer() else status;
      errors := NoteError(errors, GitAncestry, round.Error(GitAncestry));
      errors := NoteError(errors, MergeStatus, round.Error(MergeStatus));
      var remaining := p.budget - now;
      var verdict := RoundVerdict(round, p.attributed);
      if verdict.None? && remaining <= 0.0 {
        verdict := Some(Pending);
      }
      if verdict.Some? {
        return Outcome(verdict.value, RoundSource(round, p.attributed), status, errors, polls, now);
      }
      now := now + Min(p.interval, remaining);
    }
  }

  /** The first `n` rounds answer at once and settle nothing. */
  ghost predicate Silent(w: World, attributed: bool, n: nat) {
    forall k: nat :: k < n ==> w(k).Seconds() == 0.0 && RoundVerdict(w(k), attributed).None?
  }

  lemma {:induction false} SilentStart(w: World, p: Plan, k: nat)
    requires Sensible(p) && Silent(w, p.attributed, k) && GoesOn(w, p, k)
    ensures Start(w, p, k) == Min(k as real * p.interval, p.budget)
  {
    if k == 0 {
    } else {
      SilentStart(w, p, k - 1);
      assert !Ends(w, p, k - 1);
      assert w(k - 1).Seconds() == 0.0;
      assert k as real * p.interval == (k - 1) as real * p.interval + p.interval;
    }
  }

  /** Such rounds use up the whole allowance: the bound is exact. */
  lemma BoundIsReached(w: World, p: Plan, k: nat)
    requires Sensible(p) && Silent(w, p.attributed, k + 1) && IsLast(w, p, k)
    ensures k + 1 == MaxPolls(p)
  {
    SilentStart(w, p, k);
    assert w(k).Seconds() == 0.0 && RoundVerdict(w(k), p.attributed).None?;
    UnderCeil(k, p.budget, p.interval);
    UnderCeil(k - 1, p.budget, p.interval);
    if k > 0 {
      SilentStart(w, p, k - 1);
      assert !Ends(w, p, k - 1);
      assert w(k - 1).Seconds() == 0.0;
    } else {
      assert (k - 1) as real * p.interval < 0.0;
    }
  }

  // ---- the host's deadline ----

  const GIT_TIMEOUT: real := 10.0
  const FETCH_TIMEOUT: real := 60.0
  const MERGE_STATUS_TIMEOUT: real := 10.0
  const STARTUP_SLACK: real := 10.0

  function GitLimit(fetching: bool): real {
    GIT_TIMEOUT + if fetching then FETCH_TIMEOUT else 0.0
  }

  function Reserve(fetching: bool): real {
    GIT_TIMEOUT + MERGE_STATUS_TIMEOUT + STARTUP_SLACK + if fetching then FETCH_TIMEOUT else 0.0
  }

  function InvocationBudget(hostMs: nat, fetching: bool): real {
    Max(0.0, hostMs as real / 1000.0 - Reserve(fetching))
  }

  /** The plan the process makes once it has started up. */
  function MakePlan(hostMs: nat, fetching: bool, startUp: real, attributed: bool, interval: real): Plan {
    Plan(attributed, Max(0.0, InvocationBudget(hostMs, fetching) - startUp), interval)
  }

  /** Each probe keeps its own timeout. */
  ghost predicate InTime(w: World, fetching: bool) {
    forall k: nat :: w(k).gitSeconds <= GitLimit(fetching) && w(k).queueSeconds <= MERGE_STATUS_TIMEOUT
  }

  lemma LastRoundFits(w: World, p: Plan, fetching: bool, k: nat)
    requires Sensible(p) && TakesTime(w) && InTime(w, fetching) && IsLast(w, p, k)
    ensures End(w, p, k) <= p.budget + Reserve(fetching) - STARTUP_SLACK
  {
    StartInBudget(w, p, k);
    assert w(k).gitSeconds <= GitLimit(fetching) && w(k).queueSeconds <= MERGE_STATUS_TIMEOUT;
    assert w(k).gitSeconds >= 0.0;
  }

  /** Everything the process does, with `closing` seconds to print, is over by
      the host's deadline. */
  ghost predicate MeetsDeadline(hostMs: nat, fetching: bool, startUp: real, closing: real, p: Plan) {
    forall w: World, k: nat :: TakesTime(w) && InTime(w, fetching) && IsLast(w, p, k) ==>
      startUp + End(w, p, k) + closing <= hostMs as real / 1000.0
  }

  /** Whatever the probes do within their timeouts, the process ends before the
      host kills it: exactly when printing fits into the slack and the host's
      timeout covers start-up, one whole round and the printing. */
  lemma DeadlineMetIff(hostMs: nat, fetching: bool, startUp: real, closing: real, p: Plan)
    requires startUp >= 0.0 && closing >= 0.0 && p.interval > 0.0
    requires p == MakePlan(hostMs, fetching, startUp, p.attributed, p.interval)
    ensures MeetsDeadline(hostMs, fetching, startUp, closing, p) <==>
            && closing <= STARTUP_SLACK
            && startUp + Reserve(fetching) - STARTUP_SLACK + closing <= hostMs as real / 1000.0
  {
    if closing <= STARTUP_SLACK && startUp + Reserve(fetching) - STARTUP_SLACK + closing <= hostMs as real / 1000.0 {
      forall w: World, k: nat | TakesTime(w) && InTime(w, fetching) && IsLast(w, p, k)
        ensures startUp + End(w, p, k) + closing <= hostMs as real / 1000.0
      {
        LastRoundFits(w, p, fetching, k);
      }
    }
    if MeetsDeadline(hostMs, fetching, startUp, closing, p) {
      SlowestRun(p, fetching);
      var w: World, k: nat :| TakesTime(w) && InTime(w, fetching) && IsLast(w, p, k)
                              && End(w, p, k) == p.budget + Reserve(fetching) - STARTUP_SLACK;
    }
  }

  /** The first `n` rounds instant, the others as slow as the timeouts allow. */
  function LateRound(n: nat, fetching: bool, k: nat): Round {
    if k < n then Round(NotAncestor, 0.0, Status(None, ""), 0.0)
    else Round(NotAncestor, GitLimit(fetching), Status(None, ""), MERGE_STATUS_TIMEOUT)
  }

  function LateRounds(n: nat, fetching: bool): World {
    (k: nat) => LateRound(n, fetching, k)
  }

  lemma LateInTime(n: nat, fetching: bool)
    ensures TakesTime(LateRounds(n, fetching)) && InTime(LateRounds(n, fetching), fetching)
  {
    var w := LateRounds(n, fetching);
    forall k: nat
      ensures && w(k).gitSeconds >= 0.0 && w(k).queueSeconds >= 0.0
              && w(k).gitSeconds <= GitLimit(fetching) && w(k).queueSeconds <= MERGE_STATUS_TIMEOUT
    {
      assert w(k) == LateRound(n, fetching, k);
    }
  }

  /** Instant rounds run up to the budget. */
  lemma {:induction false} LateGoesOn(p: Plan, fetching: bool, n: nat, k: nat)
    requires Sensible(p) && k <= n && n == Ceil(p.budget / p.interval)
    ensures GoesOn(LateRounds(n, fetching), p, k)
  {
    var w := LateRounds(n, fetching);
    if k == 0 {
    } else {
      LateGoesOn(p, fetching, n, k - 1);
      SilentStart(w, p, k - 1);
      UnderCeil(k - 1, p.budget, p.interval);
      assert w(k - 1).Seconds() == 0.0;
      assert !Ends(w, p, k - 1);
    }
  }

  /** The longest wait: a last round that begins on the budget and takes as long
      as it may. */
  lemma SlowestRun(p: Plan, fetching: bool)
    requires Sensible(p)
    ensures exists w: World, k: nat :: TakesTime(w) && InTime(w, fetching) && IsLast(w, p, k)
                                      && End(w, p, k) == p.budget + Reserve(fetching) - STARTUP_SLACK
  {
    assert p.budget / p.interval >= 0.0;
    var n: nat := Ceil(p.budget / p.interval);
    var w := LateRounds(n, fetching);
    LateInTime(n, fetching);
    LateGoesOn(p, fetching, n, n);
    SilentStart(w, p, n);
    UnderCeil(n, p.budget, p.interval);
    assert w(n) == LateRound(n, fetching, n);
    assert w(n).Seconds() == Reserve(fetching) - STARTUP_SLACK;
    assert IsLast(w, p, n);
  }
}
