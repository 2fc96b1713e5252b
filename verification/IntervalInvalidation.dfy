/**
  Models the preview-then-apply command of
  app/feats/attendance_interval_invalidation_feat.py with its replay: preview
  identity, intent, the two checks around the lock, and the writes. Everything
  here happens within one class: every query, the lock and both unique indexes
  name the class. Digests and signatures stand for the values they are taken of.
*/
module IntervalInvalidation {
  import opened Basics

  // ----------------------------------------------------------------------- values

  datatype Interval = Interval(target: int, opening: int, closing: int)

  datatype Reason = InvalidAttendance | NonWorkActivity | DuplicateParticipation | UnknownReason

  /** How payroll has settled an interval; the last two need reconstruction or have no proof. */
  datatype Membership = Unpaid | Recorded(event: int, share: nat) | Historical | Unproven

  datatype Proof = Verified | Pending | Unavailable

  datatype Credit = Credit(proof: Proof, cents: nat)

  datatype Locator = ForInterval(actor: int, interval: Interval, reason: Reason) | ForPayment(actor: int, event: int)

  /** One posted recovery of a payroll credit: the principal, and the transfer from savings that funds it. */
  datatype Effect = Effect(event: int, locator: Locator, cents: nat, transfer: nat)

  /** Balances of one seat in cents. */
  datatype Accounts = Accounts(checking: int, savings: int)

  /** `protection` is the banking directive that lets savings cover a shortfall. */
  datatype Ledger =
    Ledger(memberships: map<Interval, Membership>, credits: map<int, Credit>, effects: seq<Effect>,
           accounts: map<int, Accounts>, protection: bool)

  datatype Recovery = Recovery(locator: Locator, cents: nat)

  /** What the credit's proof is made of: the credit and every recovery of it so far. */
  datatype Evidence = Evidence(credit: Credit, recoveries: seq<Recovery>)

  datatype Plan =
    Plan(event: int, evidence: Evidence, locator: Locator, cents: nat, target: int, before: Accounts, protection: bool,
         transfer: nat)

  /** Everything that a preview commits to. */
  datatype Material =
    Material(actor: int, interval: Interval, reason: Reason, membership: Membership, evidence: Option<Evidence>,
             plan: Option<Plan>)

  datatype Identity = Signed(material: Material) | Unsigned(text: string)

  datatype Disposition = NothingPaid | Recovered | ZeroCent | Paid

  datatype Preview = Preview(identity: Identity, disposition: Disposition, plan: Option<Plan>)

  datatype Command = Command(actor: int, interval: Interval, reason: Reason, key: string, expected: Identity)

  datatype Intent = Intent(actor: int, interval: Interval, reason: Reason, expected: Identity)

  datatype Receipt = Receipt(expected: Identity, intent: Intent, disposition: Disposition)

  datatype Decision = Decision(actor: int, interval: Interval, reason: Reason, key: string, receipt: Receipt)

  datatype Denial =
    | BadKey | InvalidReason | IncompleteInterval | AlreadyInvalidated | ProvenanceUnavailable | PayrollPending
    | IntegrityFailure | PreviewChanged | ReplayMismatch

  function IntentOf(c: Command): Intent { Intent(c.actor, c.interval, c.reason, c.expected) }

  predicate GoodKey(key: string) {
    |key| <= 128 && exists i | 0 <= i < |key| :: !IsSpace(key[i] as int)
  }

  // ---------------------------------------------------------------------- preview

  function RecoveriesOf(effects: seq<Effect>, event: int): seq<Recovery> {
    if effects == [] then []
    else
      var n := |effects| - 1;
      var earlier := RecoveriesOf(effects[..n], event);
      if effects[n].event == event then earlier + [Recovery(effects[n].locator, effects[n].cents)] else earlier
  }

  function RecoveredCents(effects: seq<Effect>, event: int): nat {
    if effects == [] then 0
    else
      var n := |effects| - 1;
      RecoveredCents(effects[..n], event) + (if effects[n].event == event then effects[n].cents else 0)
  }

  predicate Invalidated(decisions: seq<Decision>, interval: Interval) {
    exists i | 0 <= i < |decisions| :: decisions[i].interval == interval
  }

  function AccountsOf(ledger: Ledger, target: int): Accounts {
    if target in ledger.accounts then ledger.accounts[target] else Accounts(0, 0)
  }

  /** resolve_intended_ledger_plan without a fee: savings cover a shortfall in full or not at all. */
  function TransferFor(a: Accounts, cents: nat, protection: bool): nat {
    var shortfall := cents - a.checking;
    if shortfall > 0 && protection && a.savings >= shortfall then shortfall else 0
  }

  /** get_credit_compensation_proof: a credit recovered beyond its amount proves nothing. */
  function ProofOf(ledger: Ledger, event: int): Proof {
    if event !in ledger.credits || RecoveredCents(ledger.effects, event) > ledger.credits[event].cents then Unavailable
    else ledger.credits[event].proof
  }

  function Remaining(ledger: Ledger, event: int): nat
    requires ProofOf(ledger, event).Verified?
  {
    ledger.credits[event].cents - RecoveredCents(ledger.effects, event)
  }

  function EvidenceOf(ledger: Ledger, event: int): Evidence
    requires event in ledger.credits
  {
    Evidence(ledger.credits[event], RecoveriesOf(ledger.effects, event))
  }

  /** preview_attendance_interval_invalidation, for a recorded or an unpaid interval. */
  function PreviewOf(ledger: Ledger, decisions: seq<Decision>, actor: int, interval: Interval,
                     reason: Reason): Result<Preview, Denial> {
    if reason.UnknownReason? then Failure(InvalidReason)
    else if interval !in ledger.memberships then Failure(IncompleteInterval)
    else if Invalidated(decisions, interval) then Failure(AlreadyInvalidated)
    else
      var m := ledger.memberships[interval];
      match m
      case Unpaid => Success(Preview(Signed(Material(actor, interval, reason, m, None, None)), NothingPaid, None))
      case Historical => Failure(ProvenanceUnavailable)
      case Unproven => Failure(ProvenanceUnavailable)
      case Recorded(event, share) =>
        match ProofOf(ledger, event)
        case Pending => Failure(PayrollPending)
        case Unavailable => Failure(ProvenanceUnavailable)
        case Verified =>
          var evidence := EvidenceOf(ledger, event);
          if Remaining(ledger, event) == 0 then
            Success(Preview(Signed(Material(actor, interval, reason, m, Some(evidence), None)), Recovered, None))
          else if share == 0 then
            Success(Preview(Signed(Material(actor, interval, reason, m, Some(evidence), None)), ZeroCent, None))
          else if share > Remaining(ledger, event) then Failure(IntegrityFailure)
          else
            var before := AccountsOf(ledger, interval.target);
            var plan := Plan(event, evidence, ForInterval(actor, interval, reason), share, interval.target, before,
                             ledger.protection, TransferFor(before, share, ledger.protection));
            Success(Preview(Signed(Material(actor, interval, reason, m, Some(evidence), Some(plan))), Paid, Some(plan)))
  }

  /** There is no original credit to lock. */
  predicate CreditIsMissing(ledger: Ledger, m: Membership) {
    m.Recorded? && m.event !in ledger.credits
  }

  /** The command's checks of what it was given against what it finds: the preview it may apply. */
  function Approval(ledger: Ledger, decisions: seq<Decision>, c: Command): Result<Preview, Denial> {
    if !c.expected.Signed? then Failure(PreviewChanged)
    else if c.interval !in ledger.memberships then Failure(IncompleteInterval)
    else if CreditIsMissing(ledger, ledger.memberships[c.interval]) then Failure(ProvenanceUnavailable)
    else
      var p := PreviewOf(ledger, decisions, c.actor, c.interval, c.reason);
      if p.Failure? then p
      else if p.value.identity != c.expected then Failure(PreviewChanged)
      else p
  }

  /** apply_credit_recovery: prove the credit again, then post. */
  function Applied(ledger: Ledger, plan: Option<Plan>): Option<Ledger> {
    if plan.None? then Some(ledger)
    else
      var p := plan.value;
      if !ProofOf(ledger, p.event).Verified? || EvidenceOf(ledger, p.event) != p.evidence then None
      else if p.cents > Remaining(ledger, p.event) || AccountsOf(ledger, p.target) != p.before then None
      else
        var after := Accounts(p.before.checking + p.transfer - p.cents, p.before.savings - p.transfer);
        Some(ledger.(effects := ledger.effects + [Effect(p.event, p.locator, p.cents, p.transfer)],
                     accounts := ledger.accounts[p.target := after]))
  }

  function DecisionOf(c: Command, p: Preview): Decision {
    Decision(c.actor, c.interval, c.reason, c.key, Receipt(c.expected, IntentOf(c), p.disposition))
  }

  /** The first decision recorded under the key. */
  function ForKey(decisions: seq<Decision>, key: string): (r: Option<nat>)
    ensures r.Some? ==> r.value < |decisions| && decisions[r.value].key == key
    ensures r.None? ==> forall i | 0 <= i < |decisions| :: decisions[i].key != key
  {
    if decisions == [] then None
    else
      var n := |decisions| - 1;
      var r := ForKey(decisions[..n], key);
      if r.Some? then r else if decisions[n].key == key then Some(n) else None
  }

  datatype Outcome = Accepted(record: nat) | Replayed(record: nat) | Denied(code: Denial) | Aborted

  function ReplayOf(decisions: seq<Decision>, i: nat, c: Command): Outcome
    requires i < |decisions|
  {
    if decisions[i].receipt.intent == IntentOf(c) then Replayed(i) else Denied(ReplayMismatch)
  }

  datatype Desk = Desk(ledger: Ledger, decisions: seq<Decision>)

  /** The command as if nothing else ran: its outcome and what it leaves. */
  function Serial(d: Desk, c: Command): (Outcome, Desk) {
    var existing := ForKey(d.decisions, c.key);
    if !GoodKey(c.key) then (Denied(BadKey), d)
    else if existing.Some? then (ReplayOf(d.decisions, existing.value, c), d)
    else
      var p := Approval(d.ledger, d.decisions, c);
      if p.Failure? then (Denied(p.error), d)
      else
        var ledger := Applied(d.ledger, p.value.plan);
        if ledger.None? then (Denied(PreviewChanged), d)
        else (Accepted(|d.decisions|), Desk(ledger.value, d.decisions + [DecisionOf(c, p.value)]))
  }

  /** A preview just taken always applies: the second proof can only fail if the ledger moved in between. */
  lemma FreshPreviewApplies(ledger: Ledger, decisions: seq<Decision>, c: Command)
    requires Approval(ledger, decisions, c).Success?
    ensures Applied(ledger, Approval(ledger, decisions, c).value.plan).Some?
  {
  }

  class CorrectionDesk {
    var ledger: Ledger
    var decisions: seq<Decision>

    function View(): Desk
      reads this
    {
      Desk(ledger, decisions)
    }

    constructor (ledger: Ledger)
      ensures View() == Desk(ledger, [])
    {
      this.ledger := ledger;
      decisions := [];
    }

    /** The command, where the check before the lock saw only the first `seen` decisions. */
    method InvalidateAttendanceInterval(c: Command, seen: nat) returns (r: Outcome)
      requires seen <= |decisions| && KeysDiffer(decisions)
      modifies this
      ensures (r, View()) == Serial(old(View()), c)
    {
      if !GoodKey(c.key) {
        return Denied(BadKey);
      }
      var existing := ForKey(decisions[..seen], c.key);
      if existing.Some? {
        var i := existing.value;
        KeyIsUnique(decisions, i, ForKey(decisions, c.key).value);
        return ReplayOf(decisions[..seen], i, c);
      }
      existing := ForKey(decisions, c.key);
      if existing.Some? {
        return ReplayOf(decisions, existing.value, c);
      }
      var preview := Approval(ledger, decisions, c);
      if preview.Failure? {
        return Denied(preview.error);
      }
      var posted := Applied(ledger, preview.value.plan);
      if posted.None? {
        return Denied(PreviewChanged);
      }
      ledger := posted.value;
      decisions := decisions + [DecisionOf(c, preview.value)];
      return Accepted(|decisions| - 1);
    }
  }

  predicate KeysDiffer(decisions: seq<Decision>) {
    forall i, j | 0 <= i < j < |decisions| :: decisions[i].key != decisions[j].key
  }

  predicate IntervalsDiffer(decisions: seq<Decision>) {
    forall i, j | 0 <= i < j < |decisions| :: decisions[i].interval != decisions[j].interval
  }

  lemma KeyIsUnique(decisions: seq<Decision>, i: nat, j: nat)
    requires KeysDiffer(decisions) && i < |decisions| && j < |decisions| && decisions[i].key == decisions[j].key
    ensures i == j
  {
  }

  // ------------------------------------------------------------------- concurrency

  /** Where a command stands; from Holding to Posted it holds the class lock. */
  datatype Phase =
    | Begun
    | Waiting
    | Holding
    | Rechecked
    | Approved(preview: Preview)
    | Posted(desk: Desk)
    | Done(outcome: Outcome)

  datatype Session = Session(command: Command, phase: Phase)

  datatype System = System(desk: Desk, holder: Option<nat>, sessions: seq<Session>)

  datatype Step = FirstCheck | TakeLock | SecondCheck | TakePreview | Post | Commit | Abort

  /** A command moves on, or another ledger writer commits while it holds the class lock. */
  datatype Move = Move(session: nat, step: Step) | OtherWriter(ledger: Ledger)

  predicate HoldsLock(p: Phase) { p.Holding? || p.Rechecked? || p.Approved? || p.Posted? }

  /** Other writers post and change what they like, but never take back an effect or post one for an interval. */
  predicate MayWrite(before: Ledger, after: Ledger) {
    && before.effects <= after.effects
    && forall k | |before.effects| <= k < |after.effects| :: after.effects[k].locator.ForPayment?
  }

  function Checked(s: System, i: nat, next: Phase): System
    requires i < |s.sessions|
  {
    var c := s.sessions[i].command;
    var existing := ForKey(s.desk.decisions, c.key);
    if existing.Some? then Finished(s, i, s.desk, ReplayOf(s.desk.decisions, existing.value, c))
    else s.(sessions := s.sessions[i := Session(c, next)])
  }

  /** The transaction ends: its lock, if it held it, is free again. */
  function Finished(s: System, i: nat, desk: Desk, outcome: Outcome): System
    requires i < |s.sessions|
  {
    System(desk, if s.holder == Some(i) then None else s.holder,
           s.sessions[i := Session(s.sessions[i].command, Done(outcome))])
  }

  function Next(s: System, m: Move): System {
    match m
    case OtherWriter(ledger) =>
      if s.holder.None? && MayWrite(s.desk.ledger, ledger) then s.(desk := s.desk.(ledger := ledger)) else s
    case Move(i, step) =>
      if i >= |s.sessions| then s
      else
        var c, phase := s.sessions[i].command, s.sessions[i].phase;
        if step.FirstCheck? && phase.Begun? then
          if GoodKey(c.key) then Checked(s, i, Waiting) else Finished(s, i, s.desk, Denied(BadKey))
        else if step.TakeLock? && phase.Waiting? && s.holder.None? then
          System(s.desk, Some(i), s.sessions[i := Session(c, Holding)])
        else if step.SecondCheck? && phase.Holding? then Checked(s, i, Rechecked)
        else if step.TakePreview? && phase.Rechecked? then
          var p := Approval(s.desk.ledger, s.desk.decisions, c);
          if p.Failure? then Finished(s, i, s.desk, Denied(p.error))
          else s.(sessions := s.sessions[i := Session(c, Approved(p.value))])
        else if step.Post? && phase.Approved? then
          var ledger := Applied(s.desk.ledger, phase.preview.plan);
          if ledger.None? then Finished(s, i, s.desk, Denied(PreviewChanged))
          else
            var desk := Desk(ledger.value, s.desk.decisions + [DecisionOf(c, phase.preview)]);
            s.(sessions := s.sessions[i := Session(c, Posted(desk))])
        else if step.Commit? && phase.Posted? then Finished(s, i, phase.desk, Accepted(|s.desk.decisions|))
        else if step.Abort? && !phase.Done? then Finished(s, i, s.desk, Aborted)
        else s
  }

  /** Whatever a command has come to, an abort leaves the desk as it is and lets go of the lock. */
  lemma AbortsLeaveNothing(s: System, i: nat)
    requires i < |s.sessions| && !s.sessions[i].phase.Done?
    ensures var after := Next(s, Move(i, Abort));
            && after.desk == s.desk && after.holder != Some(i) && (s.holder != Some(i) ==> after.holder == s.holder)
            && after.sessions == s.sessions[i := Session(s.sessions[i].command, Done(Aborted))]
  {
  }

  function Run(s: System, moves: seq<Move>): System {
    if moves == [] then s else Next(Run(s, moves[..|moves| - 1]), moves[|moves| - 1])
  }

  function Start(ledger: Ledger, commands: seq<Command>): System {
    System(Desk(ledger, []), None, seq(|commands|, i requires 0 <= i < |commands| => Session(commands[i], Begun)))
  }

  // ------------------------------------------------------------------- invariants

  /** The ledger effect that a decision's preview identity committed to. */
  function EffectOf(d: Decision): Option<Effect> {
    if d.receipt.expected.Signed? && d.receipt.expected.material.plan.Some? then
      var plan := d.receipt.expected.material.plan.value;
      Some(Effect(plan.event, plan.locator, plan.cents, plan.transfer))
    else None
  }

  /** The receipt speaks of the decision itself. */
  predicate Honest(d: Decision) {
    && d.receipt.intent == Intent(d.actor, d.interval, d.reason, d.receipt.expected)
    && d.receipt.expected.Signed?
    && var m := d.receipt.expected.material;
       && m.actor == d.actor && m.interval == d.interval && m.reason == d.reason
       && (m.plan.Some? <==> d.receipt.disposition.Paid?)
       && (m.plan.Some? ==> m.plan.value.locator == ForInterval(d.actor, d.interval, d.reason))
  }

  predicate EffectsOncePerInterval(effects: seq<Effect>) {
    forall j, k | 0 <= j < k < |effects| && effects[j].locator.ForInterval? && effects[k].locator.ForInterval?
      :: effects[j].locator.interval != effects[k].locator.interval
  }

  /** Decisions and interval effects answer each other one to one. */
  ghost predicate Balanced(d: Desk) {
    && KeysDiffer(d.decisions) && IntervalsDiffer(d.decisions) && EffectsOncePerInterval(d.ledger.effects)
    && (forall i | 0 <= i < |d.decisions| :: Honest(d.decisions[i]) && HasEffect(d.ledger.effects, d.decisions[i]))
    && forall k | 0 <= k < |d.ledger.effects| && d.ledger.effects[k].locator.ForInterval? ::
         Decided(d.decisions, d.ledger.effects[k])
  }

  predicate HasEffect(effects: seq<Effect>, d: Decision) {
    EffectOf(d).Some? ==> EffectOf(d).value in effects
  }

  predicate Decided(decisions: seq<Decision>, e: Effect) {
    exists i | 0 <= i < |decisions| :: EffectOf(decisions[i]) == Some(e)
  }

  lemma ApprovalIsHonest(ledger: Ledger, decisions: seq<Decision>, c: Command)
    requires Approval(ledger, decisions, c).Success?
    ensures var p := Approval(ledger, decisions, c).value;
            && Honest(DecisionOf(c, p)) && !Invalidated(decisions, c.interval)
            && p.plan == c.expected.material.plan
  {
  }

  /** An accepted command adds one decision and exactly the effect its preview identity committed to. */
  lemma AcceptKeepsBalance(d: Desk, c: Command)
    requires Balanced(d) && Serial(d, c).0.Accepted?
    ensures Balanced(Serial(d, c).1)
  {
    var p := Approval(d.ledger, d.decisions, c).value;
    var after, made := Serial(d, c).1, DecisionOf(c, p);
    ApprovalIsHonest(d.ledger, d.decisions, c);
    NewDecision(d.decisions, made);
    var before, effects := d.ledger.effects, after.ledger.effects;
    assert effects == if p.plan.Some? then before + [EffectOf(made).value] else before;
    forall i | 0 <= i < |after.decisions|
      ensures Honest(after.decisions[i]) && HasEffect(effects, after.decisions[i])
    {
      assert i < |d.decisions| ==> HasEffect(before, d.decisions[i]);
    }
    forall k | 0 <= k < |effects| && effects[k].locator.ForInterval?
      ensures Decided(after.decisions, effects[k])
      ensures k < |before| ==> effects[k].locator.interval != c.interval
    {
      if k < |before| {
        assert Decided(d.decisions, before[k]);
        DecidedStays(d.decisions, made, before[k]);
      } else {
        assert EffectOf(after.decisions[|d.decisions|]) == Some(effects[k]);
      }
    }
  }

  lemma NewDecision(decisions: seq<Decision>, made: Decision)
    requires KeysDiffer(decisions) && IntervalsDiffer(decisions)
    requires ForKey(decisions, made.key).None? && !Invalidated(decisions, made.interval)
    ensures KeysDiffer(decisions + [made]) && IntervalsDiffer(decisions + [made])
  {
  }

  lemma DecidedStays(decisions: seq<Decision>, made: Decision, e: Effect)
    requires Decided(decisions, e)
    ensures Decided(decisions + [made], e)
  {
    var i :| 0 <= i < |decisions| && EffectOf(decisions[i]) == Some(e);
    assert (decisions + [made])[i] == decisions[i];
  }

  /** The record an outcome names was made for the command's key, and for its intent unless it was refused. */
  ghost predicate OutcomeIsTrue(decisions: seq<Decision>, c: Command, o: Outcome) {
    match o
    case Accepted(r) => r < |decisions| && decisions[r].key == c.key && decisions[r].receipt.intent == IntentOf(c)
    case Replayed(r) => r < |decisions| && decisions[r].key == c.key && decisions[r].receipt.intent == IntentOf(c)
    case Denied(code) =>
      code.ReplayMismatch? ==>
        exists r | 0 <= r < |decisions| :: decisions[r].key == c.key && decisions[r].receipt.intent != IntentOf(c)
    case Aborted => true
  }

  /** What a command knows in each phase; under the lock it knows the present state. */
  ghost predicate Knows(d: Desk, x: Session) {
    var c := x.command;
    match x.phase
    case Begun => true
    case Waiting => GoodKey(c.key)
    case Holding => GoodKey(c.key)
    case Rechecked => GoodKey(c.key) && ForKey(d.decisions, c.key).None?
    case Approved(p) =>
      GoodKey(c.key) && ForKey(d.decisions, c.key).None? && Approval(d.ledger, d.decisions, c) == Success(p)
    case Posted(desk) => Serial(d, c) == (Accepted(|d.decisions|), desk)
    case Done(o) => OutcomeIsTrue(d.decisions, c, o)
  }

  ghost predicate Sound(s: System) {
    && Balanced(s.desk)
    && (forall i | 0 <= i < |s.sessions| :: HoldsLock(s.sessions[i].phase) <==> s.holder == Some(i))
    && forall i | 0 <= i < |s.sessions| :: Knows(s.desk, s.sessions[i])
  }

  /** What is known without the lock stays true when decisions are added. */
  lemma KnowledgeLasts(before: Desk, after: Desk, x: Session)
    requires Knows(before, x) && !HoldsLock(x.phase) && before.decisions <= after.decisions
    ensures Knows(after, x)
  {
    if x.phase.Done? && x.phase.outcome.Denied? && x.phase.outcome.code.ReplayMismatch? {
      var c := x.command;
      var r :| 0 <= r < |before.decisions| && before.decisions[r].key == c.key
               && before.decisions[r].receipt.intent != IntentOf(c);
      assert after.decisions[r] == before.decisions[r];
    }
  }

  /** One session moves on without writing. */
  lemma MoveOn(s: System, i: nat, phase: Phase, holder: Option<nat>)
    requires Sound(s) && i < |s.sessions| && Knows(s.desk, Session(s.sessions[i].command, phase))
    requires HoldsLock(phase) <==> holder == Some(i)
    requires holder == s.holder || (s.holder.None? && holder == Some(i)) || (s.holder == Some(i) && holder.None?)
    ensures Sound(System(s.desk, holder, s.sessions[i := Session(s.sessions[i].command, phase)]))
  {
  }

  lemma ReplayIsTrue(s: System, i: nat, next: Phase)
    requires Sound(s) && i < |s.sessions| && !next.Done?
    requires ForKey(s.desk.decisions, s.sessions[i].command.key).None? ==>
             Knows(s.desk, Session(s.sessions[i].command, next))
    requires HoldsLock(next) <==> s.holder == Some(i)
    ensures Sound(Checked(s, i, next))
  {
    var c := s.sessions[i].command;
    var existing := ForKey(s.desk.decisions, c.key);
    if existing.Some? {
      var o := ReplayOf(s.desk.decisions, existing.value, c);
      MoveOn(s, i, Done(o), if s.holder == Some(i) then None else s.holder);
    } else {
      MoveOn(s, i, next, s.holder);
    }
  }

  /** While one command holds the lock, every other one knows only what lasts. */
  lemma OthersKeepKnowing(s: System, i: nat, j: nat, after: Desk)
    requires Sound(s) && s.holder == Some(i) && j < |s.sessions| && j != i && s.desk.decisions <= after.decisions
    ensures Knows(after, s.sessions[j])
  {
    assert HoldsLock(s.sessions[j].phase) <==> s.holder == Some(j);
    KnowledgeLasts(s.desk, after, s.sessions[j]);
  }

  lemma CommitIsSound(s: System, i: nat)
    requires Sound(s) && i < |s.sessions| && s.sessions[i].phase.Posted?
    ensures Sound(Finished(s, i, s.sessions[i].phase.desk, Accepted(|s.desk.decisions|)))
  {
    var c, desk := s.sessions[i].command, s.sessions[i].phase.desk;
    assert Knows(s.desk, s.sessions[i]) && s.holder == Some(i);
    AcceptKeepsBalance(s.desk, c);
    var after := Finished(s, i, desk, Accepted(|s.desk.decisions|));
    forall j | 0 <= j < |after.sessions|
      ensures Knows(desk, after.sessions[j])
    {
      if j != i {
        OthersKeepKnowing(s, i, j, desk);
      }
    }
  }

  lemma OtherWriterIsSound(s: System, ledger: Ledger)
    requires Sound(s) && s.holder.None? && MayWrite(s.desk.ledger, ledger)
    ensures Sound(s.(desk := s.desk.(ledger := ledger)))
  {
    forall i | 0 <= i < |s.sessions|
      ensures Knows(s.desk.(ledger := ledger), s.sessions[i])
    {
      assert !HoldsLock(s.sessions[i].phase);
      KnowledgeLasts(s.desk, s.desk.(ledger := ledger), s.sessions[i]);
    }
  }

  lemma MoveIsSound(s: System, i: nat, step: Step)
    requires Sound(s)
    ensures Sound(Next(s, Move(i, step)))
  {
    if i < |s.sessions| {
      var c, phase := s.sessions[i].command, s.sessions[i].phase;
      var released := if s.holder == Some(i) then None else s.holder;
      assert Knows(s.desk, s.sessions[i]);
      if step.FirstCheck? && phase.Begun? {
        if GoodKey(c.key) { ReplayIsTrue(s, i, Waiting); } else { MoveOn(s, i, Done(Denied(BadKey)), released); }
      } else if step.TakeLock? && phase.Waiting? && s.holder.None? {
        MoveOn(s, i, Holding, Some(i));
      } else if step.SecondCheck? && phase.Holding? {
        ReplayIsTrue(s, i, Rechecked);
      } else if step.TakePreview? && phase.Rechecked? {
        PreviewIsSound(s, i);
      } else if step.Post? && phase.Approved? {
        PostIsSound(s, i);
      } else if step.Commit? && phase.Posted? {
        CommitIsSound(s, i);
      } else if step.Abort? && !phase.Done? {
        MoveOn(s, i, Done(Aborted), released);
      }
    }
  }

  lemma PreviewIsSound(s: System, i: nat)
    requires Sound(s) && i < |s.sessions| && s.sessions[i].phase.Rechecked?
    ensures Sound(Next(s, Move(i, TakePreview)))
  {
    assert Knows(s.desk, s.sessions[i]);
    var p := Approval(s.desk.ledger, s.desk.decisions, s.sessions[i].command);
    if p.Failure? {
      MoveOn(s, i, Done(Denied(p.error)), if s.holder == Some(i) then None else s.holder);
    } else {
      MoveOn(s, i, Approved(p.value), s.holder);
    }
  }

  lemma PostIsSound(s: System, i: nat)
    requires Sound(s) && i < |s.sessions| && s.sessions[i].phase.Approved?
    ensures Sound(Next(s, Move(i, Post)))
  {
    var c, phase := s.sessions[i].command, s.sessions[i].phase;
    assert Knows(s.desk, s.sessions[i]);
    FreshPreviewApplies(s.desk.ledger, s.desk.decisions, c);
    var desk := Desk(Applied(s.desk.ledger, phase.preview.plan).value,
                     s.desk.decisions + [DecisionOf(c, phase.preview)]);
    MoveOn(s, i, Posted(desk), s.holder);
  }

  lemma {:induction false} RunIsSound(ledger: Ledger, commands: seq<Command>, moves: seq<Move>)
    requires forall k | 0 <= k < |ledger.effects| :: ledger.effects[k].locator.ForPayment?
    ensures Sound(Run(Start(ledger, commands), moves))
  {
    if moves != [] {
      var before, m := moves[..|moves| - 1], moves[|moves| - 1];
      RunIsSound(ledger, commands, before);
      var s := Run(Start(ledger, commands), before);
      if m.Move? {
        MoveIsSound(s, m.session, m.step);
      } else if s.holder.None? && MayWrite(s.desk.ledger, m.ledger) {
        OtherWriterIsSound(s, m.ledger);
      }
    }
  }

  // --------------------------------------------------------------------- theorems

  predicate NoIntervalEffects(ledger: Ledger) {
    forall k | 0 <= k < |ledger.effects| :: ledger.effects[k].locator.ForPayment?
  }

  /** Under any interleaving, a key and an interval have at most one accepted invalidation each. */
  lemma AtMostOneInvalidation(ledger: Ledger, commands: seq<Command>, moves: seq<Move>, i: nat, j: nat)
    requires NoIntervalEffects(ledger)
    requires var ds := Run(Start(ledger, commands), moves).desk.decisions;
             i < |ds| && j < |ds| && (ds[i].key == ds[j].key || ds[i].interval == ds[j].interval)
    ensures i == j
  {
    RunIsSound(ledger, commands, moves);
  }

  /**
    The ledger holds exactly the effect that the accepted preview identity
    committed to, once, and no other for the interval.
   */
  lemma EffectsExactlyOnce(ledger: Ledger, commands: seq<Command>, moves: seq<Move>, i: nat, k: nat)
    requires NoIntervalEffects(ledger)
    requires var d := Run(Start(ledger, commands), moves).desk;
             && i < |d.decisions| && k < |d.ledger.effects|
             && d.ledger.effects[k].locator.ForInterval?
             && d.ledger.effects[k].locator.interval == d.decisions[i].interval
    ensures var d := Run(Start(ledger, commands), moves).desk;
            && EffectOf(d.decisions[i]) == Some(d.ledger.effects[k])
            && forall j | 0 <= j < |d.ledger.effects| && d.ledger.effects[j] == d.ledger.effects[k] :: j == k
  {
    RunIsSound(ledger, commands, moves);
    var d := Run(Start(ledger, commands), moves).desk;
    assert Decided(d.decisions, d.ledger.effects[k]);
    var r :| 0 <= r < |d.decisions| && EffectOf(d.decisions[r]) == Some(d.ledger.effects[k]);
    assert Honest(d.decisions[r]);
  }

  /** What an accepted command did is what its caller agreed to: the recovery named in the preview identity it sent. */
  lemma AcceptedAppliesItsPreview(ledger: Ledger, commands: seq<Command>, moves: seq<Move>, i: nat)
    requires NoIntervalEffects(ledger)
    requires var s := Run(Start(ledger, commands), moves);
             i < |s.sessions| && s.sessions[i].phase.Done? && s.sessions[i].phase.outcome.Accepted?
    ensures var s := Run(Start(ledger, commands), moves);
            var c, r := s.sessions[i].command, s.sessions[i].phase.outcome.record;
            && r < |s.desk.decisions| && c.expected.Signed?
            && s.desk.decisions[r].key == c.key && s.desk.decisions[r].interval == c.interval
            && (if c.expected.material.plan.Some? then
                  var plan := c.expected.material.plan.value;
                  Effect(plan.event, ForInterval(c.actor, c.interval, c.reason), plan.cents, plan.transfer)
                  in s.desk.ledger.effects
                else forall k | 0 <= k < |s.desk.ledger.effects| && s.desk.ledger.effects[k].locator.ForInterval?
                       :: s.desk.ledger.effects[k].locator.interval != c.interval)
  {
    RunIsSound(ledger, commands, moves);
    var s := Run(Start(ledger, commands), moves);
    var c, r := s.sessions[i].command, s.sessions[i].phase.outcome.record;
    assert Knows(s.desk, s.sessions[i]);
    var made := s.desk.decisions[r];
    assert Honest(made) && HasEffect(s.desk.ledger.effects, made);
    forall k | 0 <= k < |s.desk.ledger.effects| && s.desk.ledger.effects[k].locator.ForInterval?
      ensures s.desk.ledger.effects[k].locator.interval == c.interval ==> EffectOf(made).Some?
    {
      if s.desk.ledger.effects[k].locator.interval == c.interval {
        EffectsExactlyOnce(ledger, commands, moves, r, k);
      }
    }
  }

  /** Every commit is the command run alone on the state it commits to: interleaved commands are serializable. */
  lemma CommitIsSerial(ledger: Ledger, commands: seq<Command>, moves: seq<Move>, i: nat)
    requires NoIntervalEffects(ledger)
    requires var s := Run(Start(ledger, commands), moves); i < |s.sessions| && s.sessions[i].phase.Posted?
    ensures var s := Run(Start(ledger, commands), moves);
            var after := Next(s, Move(i, Commit));
            after.sessions[i].phase.Done?
            && (after.sessions[i].phase.outcome, after.desk) == Serial(s.desk, s.sessions[i].command)
  {
    RunIsSound(ledger, commands, moves);
    var s := Run(Start(ledger, commands), moves);
    assert Knows(s.desk, s.sessions[i]);
  }

  // --------------------------------------------------------------- serializability

  /** What changed the ledger or the decisions: a command that committed, or another writer. */
  datatype Entry = ByCommand(session: nat) | ByOther(ledger: Ledger)

  predicate Commits(s: System, m: Move) {
    m.Move? && m.step.Commit? && m.session < |s.sessions| && s.sessions[m.session].phase.Posted?
  }

  predicate Writes(s: System, m: Move) {
    m.OtherWriter? && s.holder.None? && MayWrite(s.desk.ledger, m.ledger)
  }

  /** The writes of a run in the order they took effect. */
  function HistoryOf(s: System, moves: seq<Move>): seq<Entry> {
    if moves == [] then []
    else
      var before, m := moves[..|moves| - 1], moves[|moves| - 1];
      var earlier := HistoryOf(s, before);
      if Commits(Run(s, before), m) then earlier + [ByCommand(m.session)]
      else if Writes(Run(s, before), m) then earlier + [ByOther(m.ledger)]
      else earlier
  }

  /** One write on its own: a command run alone from start to end, or the other writer's ledger. */
  function Effected(d: Desk, commands: seq<Command>, e: Entry): Desk {
    match e
    case ByCommand(i) => if i < |commands| then Serial(d, commands[i]).1 else d
    case ByOther(ledger) => d.(ledger := ledger)
  }

  function Serially(d: Desk, commands: seq<Command>, entries: seq<Entry>): Desk {
    if entries == [] then d
    else Effected(Serially(d, commands, entries[..|entries| - 1]), commands, entries[|entries| - 1])
  }

  predicate IsAccepted(s: System, i: nat) {
    i < |s.sessions| && s.sessions[i].phase.Done? && s.sessions[i].phase.outcome.Accepted?
  }

  /** Each command in the history is accepted where it stands, and stands there once. */
  ghost predicate AllAccepted(d: Desk, commands: seq<Command>, entries: seq<Entry>) {
    && (forall k | 0 <= k < |entries| && entries[k].ByCommand? ::
          && entries[k].session < |commands|
          && Serial(Serially(d, commands, entries[..k]), commands[entries[k].session]).0.Accepted?)
    && forall j, k | 0 <= j < k < |entries| && entries[j].ByCommand? :: entries[j] != entries[k]
  }

  /** Nothing but a commit or another writer changes the desk, and only a commit makes a command accepted. */
  lemma OnlyCommitsWrite(s: System, m: Move, i: nat)
    ensures !Commits(s, m) && !Writes(s, m) ==> Next(s, m).desk == s.desk
    ensures |Next(s, m).sessions| == |s.sessions|
    ensures i < |s.sessions| ==> Next(s, m).sessions[i].command == s.sessions[i].command
    ensures IsAccepted(Next(s, m), i) <==> IsAccepted(s, i) || (Commits(s, m) && m.session == i)
  {
  }

  lemma {:induction false} SessionsKeepCommands(ledger: Ledger, commands: seq<Command>, moves: seq<Move>, i: nat)
    requires i < |commands|
    ensures var s := Run(Start(ledger, commands), moves);
            |s.sessions| == |commands| && s.sessions[i].command == commands[i]
  {
    if moves != [] {
      var before := moves[..|moves| - 1];
      SessionsKeepCommands(ledger, commands, before, i);
      OnlyCommitsWrite(Run(Start(ledger, commands), before), moves[|moves| - 1], i);
    }
  }

  lemma {:induction false} RunHasSessions(ledger: Ledger, commands: seq<Command>, moves: seq<Move>)
    ensures |Run(Start(ledger, commands), moves).sessions| == |commands|
  {
    if moves != [] {
      RunHasSessions(ledger, commands, moves[..|moves| - 1]);
      OnlyCommitsWrite(Run(Start(ledger, commands), moves[..|moves| - 1]), moves[|moves| - 1], 0);
    }
  }

  lemma {:induction false} HistoryNamesAccepted(ledger: Ledger, commands: seq<Command>, moves: seq<Move>, i: nat)
    ensures IsAccepted(Run(Start(ledger, commands), moves), i)
            <==> ByCommand(i) in HistoryOf(Start(ledger, commands), moves)
  {
    if moves != [] {
      var before := moves[..|moves| - 1];
      HistoryNamesAccepted(ledger, commands, before, i);
      OnlyCommitsWrite(Run(Start(ledger, commands), before), moves[|moves| - 1], i);
    }
  }

  lemma AppendEntry(d: Desk, commands: seq<Command>, entries: seq<Entry>, e: Entry)
    ensures Serially(d, commands, entries + [e]) == Effected(Serially(d, commands, entries), commands, e)
  {
    assert (entries + [e])[..|entries|] == entries;
  }

  lemma AppendAccepted(d: Desk, commands: seq<Command>, entries: seq<Entry>, e: Entry)
    requires AllAccepted(d, commands, entries)
    requires e.ByCommand? ==>
               && e !in entries && e.session < |commands|
               && Serial(Serially(d, commands, entries), commands[e.session]).0.Accepted?
    ensures AllAccepted(d, commands, entries + [e])
  {
    var all := entries + [e];
    forall k | 0 <= k < |all| && all[k].ByCommand?
      ensures all[k].session < |commands|
           && Serial(Serially(d, commands, all[..k]), commands[all[k].session]).0.Accepted?
    {
      assert k <= |entries| && all[..k] == entries[..k];
      assert entries[..|entries|] == entries;
    }
  }

  /**
    Interleaved commands are serializable: whatever the interleaving, the ledger
    and the decisions are those of the accepted commands run one after the other,
    each alone, in the order they committed, with the other writers in between;
    each is accepted in its place, and no other command leaves a trace.
   */
  lemma {:induction false} RunIsSerializable(ledger: Ledger, commands: seq<Command>, moves: seq<Move>)
    requires NoIntervalEffects(ledger)
    ensures var start := Start(ledger, commands);
            var history := HistoryOf(start, moves);
            && Run(start, moves).desk == Serially(start.desk, commands, history)
            && AllAccepted(start.desk, commands, history)
            && forall i :: IsAccepted(Run(start, moves), i) <==> ByCommand(i) in history
  {
    var start := Start(ledger, commands);
    forall i: nat
      ensures IsAccepted(Run(start, moves), i) <==> ByCommand(i) in HistoryOf(start, moves)
    {
      HistoryNamesAccepted(ledger, commands, moves, i);
    }
    if moves != [] {
      var before, m := moves[..|moves| - 1], moves[|moves| - 1];
      var s, earlier := Run(start, before), HistoryOf(start, before);
      RunIsSerializable(ledger, commands, before);
      OnlyCommitsWrite(s, m, 0);
      if Commits(s, m) {
        RunHasSessions(ledger, commands, before);
        SessionsKeepCommands(ledger, commands, before, m.session);
        CommitIsSerial(ledger, commands, before, m.session);
        assert !IsAccepted(s, m.session);
        AppendEntry(start.desk, commands, earlier, ByCommand(m.session));
        AppendAccepted(start.desk, commands, earlier, ByCommand(m.session));
      } else if Writes(s, m) {
        AppendEntry(start.desk, commands, earlier, ByOther(m.ledger));
        AppendAccepted(start.desk, commands, earlier, ByOther(m.ledger));
      }
    }
  }

  /**
    A command under a recorded key writes nothing: it gets the record back for
    the same intent and is refused for another.
   */
  lemma RetryReplays(ledger: Ledger, commands: seq<Command>, moves: seq<Move>, i: nat, r: nat)
    requires NoIntervalEffects(ledger)
    requires var s := Run(Start(ledger, commands), moves);
             && i < |s.sessions| && s.sessions[i].phase.Begun? && GoodKey(s.sessions[i].command.key)
             && r < |s.desk.decisions| && s.desk.decisions[r].key == s.sessions[i].command.key
    ensures var s := Run(Start(ledger, commands), moves);
            var after := Next(s, Move(i, FirstCheck));
            && after.desk == s.desk
            && after.sessions[i].phase ==
                 if s.desk.decisions[r].receipt.intent == IntentOf(s.sessions[i].command) then Done(Replayed(r))
                 else Done(Denied(ReplayMismatch))
  {
    RunIsSound(ledger, commands, moves);
    var s := Run(Start(ledger, commands), moves);
    KeyIsUnique(s.desk.decisions, r, ForKey(s.desk.decisions, s.sessions[i].command.key).value);
  }

  /** Two commands under one key that both report a record report the same one, and had the same intent. */
  lemma SameKeySameRecord(ledger: Ledger, commands: seq<Command>, moves: seq<Move>, i: nat, j: nat)
    requires NoIntervalEffects(ledger)
    requires var s := Run(Start(ledger, commands), moves);
             && i < |s.sessions| && j < |s.sessions| && s.sessions[i].command.key == s.sessions[j].command.key
             && s.sessions[i].phase.Done? && s.sessions[j].phase.Done?
             && (s.sessions[i].phase.outcome.Accepted? || s.sessions[i].phase.outcome.Replayed?)
             && (s.sessions[j].phase.outcome.Accepted? || s.sessions[j].phase.outcome.Replayed?)
    ensures var s := Run(Start(ledger, commands), moves);
            s.sessions[i].phase.outcome.record == s.sessions[j].phase.outcome.record
            && IntentOf(s.sessions[i].command) == IntentOf(s.sessions[j].command)
  {
    RunIsSound(ledger, commands, moves);
    var s := Run(Start(ledger, commands), moves);
    assert Knows(s.desk, s.sessions[i]) && Knows(s.desk, s.sessions[j]);
    KeyIsUnique(s.desk.decisions, s.sessions[i].phase.outcome.record, s.sessions[j].phase.outcome.record);
  }

  /** An accepted recovery takes its cents from that credit and never more than is left of it. */
  lemma RecoveryIsConservative(d: Desk, c: Command, event: int)
    requires Serial(d, c).0.Accepted? && event in d.ledger.credits
    ensures var after, plan := Serial(d, c).1.ledger, c.expected.material.plan;
            var taken := if plan.Some? && plan.value.event == event then plan.value.cents else 0;
            && RecoveredCents(after.effects, event) == RecoveredCents(d.ledger.effects, event) + taken
            && (taken > 0 ==> RecoveredCents(after.effects, event) <= d.ledger.credits[event].cents)
  {
    var p := Approval(d.ledger, d.decisions, c).value;
    ApprovalIsHonest(d.ledger, d.decisions, c);
    if p.plan.Some? {
      var plan := p.plan.value;
      RecoveredGrows(d.ledger.effects, Effect(plan.event, plan.locator, plan.cents, plan.transfer), event);
      AppliedFits(d.ledger, plan);
    }
  }

  lemma AppliedFits(ledger: Ledger, plan: Plan)
    requires Applied(ledger, Some(plan)).Some?
    ensures plan.event in ledger.credits
         && RecoveredCents(ledger.effects, plan.event) + plan.cents <= ledger.credits[plan.event].cents
    ensures Applied(ledger, Some(plan)).value.effects
         == ledger.effects + [Effect(plan.event, plan.locator, plan.cents, plan.transfer)]
  {
  }

  lemma RecoveredGrows(effects: seq<Effect>, e: Effect, event: int)
    ensures RecoveredCents(effects + [e], event)
         == RecoveredCents(effects, event) + (if e.event == event then e.cents else 0)
  {
    assert (effects + [e])[..|effects|] == effects;
  }

  /**
    Only the seat of the interval pays, and exactly the agreed cents. Savings are
    touched only under protection, and then they lift checking to zero without
    going below zero themselves; they do so whenever they suffice.
   */
  lemma OneSeatPays(d: Desk, c: Command, target: int)
    requires Serial(d, c).0.Accepted?
    ensures var before, after := AccountsOf(d.ledger, target), AccountsOf(Serial(d, c).1.ledger, target);
            var plan, protection := c.expected.material.plan, d.ledger.protection;
            if plan.None? || c.interval.target != target then after == before
            else
              var cents := plan.value.cents;
              && after.checking + after.savings == before.checking + before.savings - cents
              && (after.savings == before.savings || (protection && after.checking == 0 && after.savings >= 0))
              && (protection && before.checking < cents <= before.checking + before.savings ==> after.checking == 0)
  {
    var p := Approval(d.ledger, d.decisions, c).value;
    assert p.plan == c.expected.material.plan;
  }

  /** One session takes its next step. */
  function Stepped(s: System, step: Step): System { Next(s, Move(0, step)) }

  /** A command that nothing else disturbs does what it does alone. */
  lemma UndisturbedIsSerial(ledger: Ledger, c: Command)
    ensures var moves := [Move(0, FirstCheck), Move(0, TakeLock), Move(0, SecondCheck), Move(0, TakePreview),
                          Move(0, Post), Move(0, Commit)];
            var s := Run(Start(ledger, [c]), moves);
            && |s.sessions| == 1 && s.sessions[0].phase.Done? && s.holder.None?
            && (s.sessions[0].phase.outcome, s.desk) == Serial(Desk(ledger, []), c)
  {
    var moves := [Move(0, FirstCheck), Move(0, TakeLock), Move(0, SecondCheck), Move(0, TakePreview), Move(0, Post),
                  Move(0, Commit)];
    var start := Start(ledger, [c]);
    SixMoves(start, moves);
    var s1 := Stepped(start, FirstCheck);
    var s3 := Stepped(Stepped(s1, TakeLock), SecondCheck);
    if GoodKey(c.key) {
      assert s1 == System(Desk(ledger, []), None, [Session(c, Waiting)]);
      assert s3 == System(Desk(ledger, []), Some(0), [Session(c, Rechecked)]);
      UnderTheLock(ledger, c);
    } else {
      assert s1 == System(Desk(ledger, []), None, [Session(c, Done(Denied(BadKey)))]);
      assert s3 == s1 && Stepped(s3, TakePreview) == s1 && Stepped(s1, Post) == s1 && Stepped(s1, Commit) == s1;
    }
  }

  lemma UnderTheLock(ledger: Ledger, c: Command)
    requires GoodKey(c.key)
    ensures var rechecked := System(Desk(ledger, []), Some(0), [Session(c, Rechecked)]);
            var s := Stepped(Stepped(Stepped(rechecked, TakePreview), Post), Commit);
            && |s.sessions| == 1 && s.sessions[0].phase.Done? && s.holder.None?
            && (s.sessions[0].phase.outcome, s.desk) == Serial(Desk(ledger, []), c)
  {
    var rechecked := System(Desk(ledger, []), Some(0), [Session(c, Rechecked)]);
    var p := Approval(ledger, [], c);
    var s4 := Stepped(rechecked, TakePreview);
    if p.Success? {
      FreshPreviewApplies(ledger, [], c);
      assert s4 == rechecked.(sessions := [Session(c, Approved(p.value))]);
      var desk := Desk(Applied(ledger, p.value.plan).value, [] + [DecisionOf(c, p.value)]);
      assert Stepped(s4, Post) == rechecked.(sessions := [Session(c, Posted(desk))]);
    } else {
      assert s4 == System(Desk(ledger, []), None, [Session(c, Done(Denied(p.error)))]);
      assert Stepped(s4, Post) == s4 && Stepped(s4, Commit) == s4;
    }
  }

  lemma SixMoves(s: System, m: seq<Move>)
    requires |m| == 6
    ensures Run(s, m) == Next(Next(Next(Next(Next(Next(s, m[0]), m[1]), m[2]), m[3]), m[4]), m[5])
  {
    assert m[..1][..0] == [] && m[..2][..1] == m[..1] && m[..3][..2] == m[..2];
    assert Run(s, m[..1]) == Next(s, m[0]);
    assert Run(s, m[..2]) == Next(Run(s, m[..1]), m[1]);
    assert Run(s, m[..3]) == Next(Run(s, m[..2]), m[2]);
    assert m[..4][..3] == m[..3] && m[..5][..4] == m[..4];
    assert Run(s, m[..4]) == Next(Run(s, m[..3]), m[3]);
    assert Run(s, m[..5]) == Next(Run(s, m[..4]), m[4]);
  }

  // --------------------------------------------------- the command in plain terms

  /** An interval whose credit is verified and not yet fully recovered, with something of it to recover. */
  predicate Pays(ledger: Ledger, interval: Interval)
    requires interval in ledger.memberships
  {
    var m := ledger.memberships[interval];
    && m.Recorded? && m.share > 0 && m.event in ledger.credits
    && RecoveredCents(ledger.effects, m.event) < ledger.credits[m.event].cents
  }

  /** A key, a reason and an interval for which a correction can still be accepted, on the right preview. */
  ghost predicate Acceptable(d: Desk, c: Command) {
    && |c.key| <= 128 && (exists i | 0 <= i < |c.key| :: !IsSpace(c.key[i] as int))
    && (forall i | 0 <= i < |d.decisions| :: d.decisions[i].key != c.key && d.decisions[i].interval != c.interval)
    && c.reason != UnknownReason
    && c.interval in d.ledger.memberships
    && var m := d.ledger.memberships[c.interval];
    && (m.Unpaid?
        || (m.Recorded? && m.event in d.ledger.credits && d.ledger.credits[m.event].proof.Verified?
            && var taken, cents := RecoveredCents(d.ledger.effects, m.event), d.ledger.credits[m.event].cents;
               taken == cents || taken + m.share <= cents))
  }

  /** Everything that the identity of an accepted preview commits to. */
  predicate CommitsTo(ledger: Ledger, c: Command, m: Material) {
    && m.actor == c.actor && m.interval == c.interval && m.reason == c.reason
    && c.interval in ledger.memberships && m.membership == ledger.memberships[c.interval]
    && (m.membership.Unpaid? ==> m.evidence.None?)
    && (m.membership.Recorded? ==>
          && m.membership.event in ledger.credits
          && m.evidence == Some(Evidence(ledger.credits[m.membership.event],
                                         RecoveriesOf(ledger.effects, m.membership.event))))
    && (m.plan.Some? <==> Pays(ledger, c.interval))
    && (m.plan.Some? ==>
          && m.plan.value.event == m.membership.event && m.plan.value.cents == m.membership.share
          && m.plan.value.locator == ForInterval(c.actor, c.interval, c.reason)
          && m.plan.value.evidence == m.evidence.value
          && m.plan.value.target == c.interval.target
          && m.plan.value.before == (if c.interval.target in ledger.accounts then ledger.accounts[c.interval.target]
                                     else Accounts(0, 0))
          && m.plan.value.protection == ledger.protection)
  }

  /** The one preview that fits: which commands can be accepted, and that exactly one identity makes them so. */
  lemma AcceptableExactly(d: Desk, c: Command)
    ensures Acceptable(d, c)
            <==> exists expected :: Serial(d, c.(expected := expected)).0.Accepted?
    ensures Serial(d, c).0.Accepted? ==> c.expected.Signed? && CommitsTo(d.ledger, c, c.expected.material)
    ensures forall other ::
              Serial(d, c).0.Accepted? && Serial(d, c.(expected := other)).0.Accepted? ==> other == c.expected
  {
    if Acceptable(d, c) {
      var p := PreviewOf(d.ledger, d.decisions, c.actor, c.interval, c.reason);
      assert ForKey(d.decisions, c.key).None? && !Invalidated(d.decisions, c.interval);
      var expected := p.value.identity;
      assert Approval(d.ledger, d.decisions, c.(expected := expected)) == p;
      FreshPreviewApplies(d.ledger, d.decisions, c.(expected := expected));
      assert Serial(d, c.(expected := expected)).0.Accepted?;
    }
    if expected :| Serial(d, c.(expected := expected)).0.Accepted? {
      AcceptedIsAcceptable(d, c.(expected := expected));
    }
  }

  lemma AcceptedIsAcceptable(d: Desk, c: Command)
    requires Serial(d, c).0.Accepted?
    ensures Acceptable(d, c)
  {
    assert !Invalidated(d.decisions, c.interval);
  }

  /**
    What an accepted command does: one decision that says what was agreed, and, where the interval still pays, one
    recovery of exactly its recorded share; otherwise the ledger stays as it is.
   */
  lemma AcceptedTakesItsShare(d: Desk, c: Command)
    requires Serial(d, c).0.Accepted?
    ensures c.interval in d.ledger.memberships
    ensures var m, after := d.ledger.memberships[c.interval], Serial(d, c).1;
            && |after.decisions| == |d.decisions| + 1 && d.decisions <= after.decisions
            && after.decisions[|d.decisions|]
               == Decision(c.actor, c.interval, c.reason, c.key,
                           Receipt(c.expected, Intent(c.actor, c.interval, c.reason, c.expected),
                                   if m.Unpaid? then NothingPaid
                                   else if Pays(d.ledger, c.interval) then Paid
                                   else if RecoveredCents(d.ledger.effects, m.event) < d.ledger.credits[m.event].cents
                                     then ZeroCent
                                   else Recovered))
            && (!Pays(d.ledger, c.interval) ==> after.ledger == d.ledger)
            && (Pays(d.ledger, c.interval) ==>
                  && RecoveredCents(after.ledger.effects, m.event)
                     == RecoveredCents(d.ledger.effects, m.event) + m.share
                  && |after.ledger.effects| == |d.ledger.effects| + 1 && d.ledger.effects <= after.ledger.effects
                  && var e := after.ledger.effects[|d.ledger.effects|];
                  && e.event == m.event && e.cents == m.share
                  && e.locator == ForInterval(c.actor, c.interval, c.reason)
                  && after.ledger == d.ledger.(effects := after.ledger.effects, accounts := after.ledger.accounts)
                  && AccountsOf(after.ledger, c.interval.target).savings
                     == AccountsOf(d.ledger, c.interval.target).savings - e.transfer)
  {
    AcceptedIsAcceptable(d, c);
    AcceptableExactly(d, c);
    if d.ledger.memberships[c.interval].Recorded? {
      RecoveryIsConservative(d, c, d.ledger.memberships[c.interval].event);
    }
  }

  lemma {:induction false} RecoveriesGrow(effects: seq<Effect>, more: seq<Effect>, event: int)
    ensures RecoveredCents([], event) == 0 && RecoveriesOf([], event) == []
    ensures |RecoveriesOf(effects, event)| <= |RecoveriesOf(effects + more, event)|
    ensures |RecoveriesOf(effects, event)| == |RecoveriesOf(effects + more, event)|
            <==> forall k | 0 <= k < |more| :: more[k].event != event
  {
    if more == [] {
      assert effects + more == effects;
    } else {
      var n := |more| - 1;
      RecoveriesGrow(effects, more[..n], event);
      assert (effects + more)[..|effects| + n] == effects + more[..n];
    }
  }

  /**
    A preview is refused once anything it commits to has changed: the settlement of the interval, a recovery of its
    credit, or, where it pays, the balances of its seat and the banking directive.
   */
  lemma StalePreviewIsRefused(d: Desk, later: Desk, c: Command, more: seq<Effect>)
    requires Serial(d, c).0.Accepted? && later.ledger.effects == d.ledger.effects + more
    requires c.interval in d.ledger.memberships && c.interval in later.ledger.memberships
    requires var m := d.ledger.memberships[c.interval];
             || later.ledger.memberships[c.interval] != m
             || (m.Recorded? && exists k | 0 <= k < |more| :: more[k].event == m.event)
             || (Pays(d.ledger, c.interval)
                 && (later.ledger.protection != d.ledger.protection
                     || AccountsOf(later.ledger, c.interval.target) != AccountsOf(d.ledger, c.interval.target)))
    ensures !Serial(later, c).0.Accepted?
  {
    AcceptableExactly(d, c);
    AcceptableExactly(later, c);
    if d.ledger.memberships[c.interval].Recorded? {
      RecoveriesGrow(d.ledger.effects, more, d.ledger.memberships[c.interval].event);
    }
  }

  /** Why the preview of a known reason and interval is refused, by what has been recorded of it. */
  lemma RefusedExactly(ledger: Ledger, decisions: seq<Decision>, actor: int, interval: Interval, reason: Reason)
    requires interval in ledger.memberships
    ensures var p, m := PreviewOf(ledger, decisions, actor, interval, reason), ledger.memberships[interval];
            var open := reason != UnknownReason && forall i | 0 <= i < |decisions| :: decisions[i].interval != interval;
            && (p == Failure(InvalidReason) <==> reason == UnknownReason)
            && (p == Failure(AlreadyInvalidated) <==> reason != UnknownReason && !open)
            && (p == Failure(PayrollPending)
                <==> open && m.Recorded? && Provable(ledger, m.event) && ledger.credits[m.event].proof.Pending?)
            && (p == Failure(ProvenanceUnavailable)
                <==> open && (m.Historical? || m.Unproven?
                              || (m.Recorded? && !Provable(ledger, m.event))
                              || (m.Recorded? && ledger.credits[m.event].proof.Unavailable?)))
            && (p == Failure(IntegrityFailure)
                <==> open && m.Recorded? && Provable(ledger, m.event) && ledger.credits[m.event].proof.Verified?
                     && RecoveredCents(ledger.effects, m.event)
                        < ledger.credits[m.event].cents < RecoveredCents(ledger.effects, m.event) + m.share)
  {
  }

  /** What the command refuses before it takes a preview: a forged identity first, then a credit it cannot lock. */
  lemma RefusedBeforePreview(d: Desk, c: Command)
    requires GoodKey(c.key) && ForKey(d.decisions, c.key).None?
    ensures c.expected.Unsigned? ==> Serial(d, c) == (Denied(PreviewChanged), d)
    ensures c.expected.Signed? && c.interval !in d.ledger.memberships ==>
              Serial(d, c) == (Denied(IncompleteInterval), d)
    ensures c.expected.Signed? && c.interval in d.ledger.memberships && d.ledger.memberships[c.interval].Recorded?
              && d.ledger.memberships[c.interval].event !in d.ledger.credits ==>
              Serial(d, c) == (Denied(ProvenanceUnavailable), d)
  {
  }

  /** The second proof: a plan is posted exactly when credit, recoveries and balances are still those it was made of. */
  lemma AppliedExactly(ledger: Ledger, plan: Plan)
    ensures Applied(ledger, None) == Some(ledger)
    ensures Applied(ledger, Some(plan)).Some? <==>
              && plan.event in ledger.credits && ledger.credits[plan.event].proof.Verified?
              && plan.evidence == Evidence(ledger.credits[plan.event], RecoveriesOf(ledger.effects, plan.event))
              && RecoveredCents(ledger.effects, plan.event) + plan.cents <= ledger.credits[plan.event].cents
              && plan.before == (if plan.target in ledger.accounts then ledger.accounts[plan.target]
                                 else Accounts(0, 0))
  {
  }

  /** A credit that is there and was not recovered beyond its amount. */
  predicate Provable(ledger: Ledger, event: int) {
    event in ledger.credits && RecoveredCents(ledger.effects, event) <= ledger.credits[event].cents
  }
}
