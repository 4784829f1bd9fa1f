/**
 * The join-validation decision and the purge of unverified members
 * (hourai/extensions/validation/__init__.py).
 *
 * A validator is not run here: each one is represented by what its two reason
 * generators yielded for the member at hand (a reason text, or None), and by
 * the point, if any, where one of them raised.
 */
module Validation {
  import opened Wrappers
  import opened Seqs

  // ---------------------------------------------------------------------------
  // Validators and the decision fold
  // ---------------------------------------------------------------------------

  /** Where a validator's run stopped. */
  datatype Fault = Completed | RaisedInRejections | RaisedInApprovals

  /**
   * What one validator yielded for one member: its rejection reasons, then its
   * approval reasons, each up to the point where that generator raised (if it
   * did). When the rejection generator raised, the approval generator is never
   * started, and `approvals` is not looked at.
   */
  datatype ValidatorRun = ValidatorRun(
    rejections: seq<Option<string>>,
    approvals: seq<Option<string>>,
    fault: Fault)

  /** A reason that was not None, tagged with the generator that yielded it. */
  datatype Signal = Reject(text: string) | Approve(text: string)

  /** The triple returned by the decision: the verdict and both reason lists. */
  datatype Decision = Decision(approved: bool, approvalReasons: seq<string>, rejectionReasons: seq<string>)

  /** The state before any validator ran: approved, no reasons. */
  const Undetermined: Decision := Decision(true, [], [])

  function RejectSignals(rs: seq<Option<string>>): seq<Signal>
  {
    if rs == [] then []
    else RejectSignals(rs[..|rs| - 1]) + (if rs[|rs| - 1].Some? then [Reject(rs[|rs| - 1].value)] else [])
  }

  function ApproveSignals(rs: seq<Option<string>>): seq<Signal>
  {
    if rs == [] then []
    else ApproveSignals(rs[..|rs| - 1]) + (if rs[|rs| - 1].Some? then [Approve(rs[|rs| - 1].value)] else [])
  }

  /** The approval reasons that are drained: none when the rejection generator raised. */
  function DrainedApprovals(v: ValidatorRun): seq<Option<string>>
  {
    if v.fault == RaisedInRejections then [] else v.approvals
  }

  /** What one validator contributes to the decision, in the order it is consumed. */
  function RunSignals(v: ValidatorRun): seq<Signal>
  {
    RejectSignals(v.rejections) + ApproveSignals(DrainedApprovals(v))
  }

  /** What the whole chain contributes, validator after validator. */
  function Signals(vs: seq<ValidatorRun>): seq<Signal>
  {
    if vs == [] then [] else Signals(vs[..|vs| - 1]) + RunSignals(vs[|vs| - 1])
  }

  /** One reason consumed: a rejection clears the approval, an approval sets it. */
  function Step(d: Decision, s: Signal): Decision
  {
    match s
    case Reject(t) => Decision(false, d.approvalReasons, d.rejectionReasons + [t])
    case Approve(t) => Decision(true, d.approvalReasons + [t], d.rejectionReasons)
  }

  function Fold(d: Decision, ss: seq<Signal>): Decision
  {
    if ss == [] then d else Step(Fold(d, ss[..|ss| - 1]), ss[|ss| - 1])
  }

  /** The decision the chain `vs` reaches: every reason met, in order, folded into the triple. */
  function Aggregate(vs: seq<ValidatorRun>): Decision
  {
    Fold(Undetermined, Signals(vs))
  }

  function RejectTexts(ss: seq<Signal>): seq<string>
  {
    if ss == [] then []
    else RejectTexts(ss[..|ss| - 1]) + (if ss[|ss| - 1].Reject? then [ss[|ss| - 1].text] else [])
  }

  function ApproveTexts(ss: seq<Signal>): seq<string>
  {
    if ss == [] then []
    else ApproveTexts(ss[..|ss| - 1]) + (if ss[|ss| - 1].Approve? then [ss[|ss| - 1].text] else [])
  }

  /** The verdict after the reasons `ss`: approved when there are none or the last one approves. */
  predicate EndsApproved(ss: seq<Signal>)
  {
    ss == [] || ss[|ss| - 1].Approve?
  }

  // The decision as the loop below builds it: generator by generator, validator by validator.

  function FoldRejections(d: Decision, rs: seq<Option<string>>): Decision
  {
    if rs == [] then d
    else
      var e := FoldRejections(d, rs[..|rs| - 1]);
      if rs[|rs| - 1].Some? then Step(e, Reject(rs[|rs| - 1].value)) else e
  }

  function FoldApprovals(d: Decision, rs: seq<Option<string>>): Decision
  {
    if rs == [] then d
    else
      var e := FoldApprovals(d, rs[..|rs| - 1]);
      if rs[|rs| - 1].Some? then Step(e, Approve(rs[|rs| - 1].value)) else e
  }

  function RunValidator(d: Decision, v: ValidatorRun): Decision
  {
    var e := FoldRejections(d, v.rejections);
    if v.fault == RaisedInRejections then e else FoldApprovals(e, v.approvals)
  }

  function Chain(d: Decision, vs: seq<ValidatorRun>): Decision
  {
    if vs == [] then d else RunValidator(Chain(d, vs[..|vs| - 1]), vs[|vs| - 1])
  }

  /**
   * `_validate_member`: walks the chain in order, draining each validator's
   * rejection reasons and then its approval reasons; an exception from a
   * validator is swallowed and the walk goes on with the next one.
   */
  method ValidateMember(validators: seq<ValidatorRun>)
    returns (approved: bool, approvalReasons: seq<string>, rejectionReasons: seq<string>)
    ensures Decision(approved, approvalReasons, rejectionReasons) == Aggregate(validators)
    ensures approved <==> EndsApproved(Signals(validators))
    ensures approvalReasons == ApproveTexts(Signals(validators))
    ensures rejectionReasons == RejectTexts(Signals(validators))
  {
    approved, approvalReasons, rejectionReasons := true, [], [];
    var i := 0;
    while i < |validators|
      invariant 0 <= i <= |validators|
      invariant Decision(approved, approvalReasons, rejectionReasons) == Chain(Undetermined, validators[..i])
    {
      var v := validators[i];
      ghost var before := Decision(approved, approvalReasons, rejectionReasons);
      var j := 0;
      assert v.rejections[..0] == [];
      while j < |v.rejections|
        invariant 0 <= j <= |v.rejections|
        invariant Decision(approved, approvalReasons, rejectionReasons) == FoldRejections(before, v.rejections[..j])
      {
        assert v.rejections[..j + 1][..j] == v.rejections[..j];
        var reason := v.rejections[j];
        if reason.Some? {
          rejectionReasons := rejectionReasons + [reason.value];
          approved := false;
        }
        j := j + 1;
      }
      assert v.rejections[..j] == v.rejections;
      if v.fault != RaisedInRejections {
        ghost var middle := Decision(approved, approvalReasons, rejectionReasons);
        var k := 0;
        assert v.approvals[..0] == [];
        while k < |v.approvals|
          invariant 0 <= k <= |v.approvals|
          invariant Decision(approved, approvalReasons, rejectionReasons) == FoldApprovals(middle, v.approvals[..k])
        {
          assert v.approvals[..k + 1][..k] == v.approvals[..k];
          var reason := v.approvals[k];
          if reason.Some? {
            approvalReasons := approvalReasons + [reason.value];
            approved := true;
          }
          k := k + 1;
        }
        assert v.approvals[..k] == v.approvals;
      }
      // otherwise the rejection generator raised: the exception is caught and the chain goes on
      assert validators[..i + 1][..i] == validators[..i];
      i := i + 1;
    }
    assert validators[..i] == validators;
    ChainIsFold(Undetermined, validators);
    FoldShape(Undetermined, Signals(validators));
  }

  // ---------------------------------------------------------------------------
  // Properties of the fold
  // ---------------------------------------------------------------------------

  lemma {:induction false} FoldAppend(d: Decision, a: seq<Signal>, b: seq<Signal>)
    ensures Fold(d, a + b) == Fold(Fold(d, a), b)
  {
    if b == [] {
      assert a + b == a;
    } else {
      Snoc(a, b);
      FoldAppend(d, a, b[..|b| - 1]);
    }
  }

  lemma FoldOne(d: Decision, s: Signal)
    ensures Fold(d, [s]) == Step(d, s)
  {
    assert [s][..0] == [];
  }

  lemma {:induction false} FoldRejectionsIsFold(d: Decision, rs: seq<Option<string>>)
    ensures FoldRejections(d, rs) == Fold(d, RejectSignals(rs))
  {
    if rs != [] {
      var init, last := rs[..|rs| - 1], rs[|rs| - 1];
      FoldRejectionsIsFold(d, init);
      var tail := if last.Some? then [Reject(last.value)] else [];
      FoldAppend(d, RejectSignals(init), tail);
      if last.Some? {
        FoldOne(Fold(d, RejectSignals(init)), Reject(last.value));
      } else {
        assert RejectSignals(init) + tail == RejectSignals(init);
      }
    }
  }

  lemma {:induction false} FoldApprovalsIsFold(d: Decision, rs: seq<Option<string>>)
    ensures FoldApprovals(d, rs) == Fold(d, ApproveSignals(rs))
  {
    if rs != [] {
      var init, last := rs[..|rs| - 1], rs[|rs| - 1];
      FoldApprovalsIsFold(d, init);
      var tail := if last.Some? then [Approve(last.value)] else [];
      FoldAppend(d, ApproveSignals(init), tail);
      if last.Some? {
        FoldOne(Fold(d, ApproveSignals(init)), Approve(last.value));
      } else {
        assert ApproveSignals(init) + tail == ApproveSignals(init);
      }
    }
  }

  /** The loop's validator-by-validator decision is the fold of every reason met, in order. */
  lemma {:induction false} ChainIsFold(d: Decision, vs: seq<ValidatorRun>)
    ensures Chain(d, vs) == Fold(d, Signals(vs))
  {
    if vs != [] {
      var init, v := vs[..|vs| - 1], vs[|vs| - 1];
      ChainIsFold(d, init);
      var e := Fold(d, Signals(init));
      var rs := RejectSignals(v.rejections);
      FoldRejectionsIsFold(e, v.rejections);
      FoldApprovalsIsFold(Fold(e, rs), DrainedApprovals(v));
      FoldAppend(e, rs, ApproveSignals(DrainedApprovals(v)));
      FoldAppend(d, Signals(init), RunSignals(v));
      if v.fault == RaisedInRejections {
        assert ApproveSignals(DrainedApprovals(v)) == [];
      }
    }
  }

  /** The fold keeps every reason, in the order met, and its verdict is that of the last reason. */
  lemma {:induction false} FoldShape(d: Decision, ss: seq<Signal>)
    ensures Fold(d, ss).approvalReasons == d.approvalReasons + ApproveTexts(ss)
    ensures Fold(d, ss).rejectionReasons == d.rejectionReasons + RejectTexts(ss)
    ensures Fold(d, ss).approved == if ss == [] then d.approved else ss[|ss| - 1].Approve?
  {
    if ss != [] {
      var init := ss[..|ss| - 1];
      FoldShape(d, init);
      Assoc(d.approvalReasons, ApproveTexts(init), if ss[|ss| - 1].Approve? then [ss[|ss| - 1].text] else []);
      Assoc(d.rejectionReasons, RejectTexts(init), if ss[|ss| - 1].Reject? then [ss[|ss| - 1].text] else []);
    }
  }

  /** The decision of a chain: its verdict is that of the last reason met, and it reports every reason met. */
  lemma AggregateShape(vs: seq<ValidatorRun>)
    ensures Aggregate(vs).approved <==> EndsApproved(Signals(vs))
    ensures Aggregate(vs).approvalReasons == ApproveTexts(Signals(vs))
    ensures Aggregate(vs).rejectionReasons == RejectTexts(Signals(vs))
  {
    FoldShape(Undetermined, Signals(vs));
  }

  lemma {:induction false} SignalsAppend(a: seq<ValidatorRun>, b: seq<ValidatorRun>)
    ensures Signals(a + b) == Signals(a) + Signals(b)
  {
    if b == [] {
      assert a + b == a;
    } else {
      Snoc(a, b);
      SignalsAppend(a, b[..|b| - 1]);
      Assoc(Signals(a), Signals(b[..|b| - 1]), RunSignals(b[|b| - 1]));
    }
  }

  lemma SignalsSnoc(vs: seq<ValidatorRun>, i: nat)
    requires i < |vs|
    ensures Signals(vs[..i + 1]) == Signals(vs[..i]) + RunSignals(vs[i])
  {
    assert vs[..i + 1][..i] == vs[..i];
  }

  /** Splitting the chain at validator i: what came before, what i yielded, what came after. */
  lemma SignalsAround(vs: seq<ValidatorRun>, i: nat)
    requires i < |vs|
    ensures Signals(vs) == Signals(vs[..i]) + RunSignals(vs[i]) + Signals(vs[i + 1..])
  {
    var a, b := vs[..i + 1], vs[i + 1..];
    assert vs == a + b;
    SignalsAppend(a, b);
    SignalsSnoc(vs, i);
  }

  lemma {:induction false} RejectSignalsOfNones(rs: seq<Option<string>>)
    requires forall j :: 0 <= j < |rs| ==> rs[j].None?
    ensures RejectSignals(rs) == []
  {
    if rs != [] { RejectSignalsOfNones(rs[..|rs| - 1]); }
  }

  lemma {:induction false} ApproveSignalsOfNones(rs: seq<Option<string>>)
    requires forall j :: 0 <= j < |rs| ==> rs[j].None?
    ensures ApproveSignals(rs) == []
  {
    if rs != [] { ApproveSignalsOfNones(rs[..|rs| - 1]); }
  }

  /** A chain in which every reason yielded is None approves, with both lists empty. */
  lemma {:induction false} NoReasonsApproves(vs: seq<ValidatorRun>)
    requires forall i, j :: 0 <= i < |vs| && 0 <= j < |vs[i].rejections| ==> vs[i].rejections[j].None?
    requires forall i, j :: 0 <= i < |vs| && 0 <= j < |vs[i].approvals| ==> vs[i].approvals[j].None?
    ensures Aggregate(vs) == Decision(true, [], [])
  {
    NoSignals(vs);
  }

  lemma {:induction false} NoSignals(vs: seq<ValidatorRun>)
    requires forall i, j :: 0 <= i < |vs| && 0 <= j < |vs[i].rejections| ==> vs[i].rejections[j].None?
    requires forall i, j :: 0 <= i < |vs| && 0 <= j < |vs[i].approvals| ==> vs[i].approvals[j].None?
    ensures Signals(vs) == []
  {
    if vs != [] {
      var last := vs[|vs| - 1];
      NoSignals(vs[..|vs| - 1]);
      RejectSignalsOfNones(last.rejections);
      ApproveSignalsOfNones(DrainedApprovals(last));
    }
  }

  lemma {:induction false} ApproveSignalsAreApprovals(rs: seq<Option<string>>)
    ensures forall k :: 0 <= k < |ApproveSignals(rs)| ==> ApproveSignals(rs)[k].Approve?
    ensures (exists j :: 0 <= j < |rs| && rs[j].Some?) ==> ApproveSignals(rs) != []
  {
    if rs != [] {
      ApproveSignalsAreApprovals(rs[..|rs| - 1]);
      if exists j :: 0 <= j < |rs| && rs[j].Some? {
        var j :| 0 <= j < |rs| && rs[j].Some?;
        if j < |rs| - 1 { assert rs[..|rs| - 1][j].Some?; }
      }
    }
  }

  lemma {:induction false} RejectSignalsAreRejections(rs: seq<Option<string>>)
    ensures forall k :: 0 <= k < |RejectSignals(rs)| ==> RejectSignals(rs)[k].Reject?
    ensures (exists j :: 0 <= j < |rs| && rs[j].Some?) ==> RejectSignals(rs) != []
  {
    if rs != [] {
      RejectSignalsAreRejections(rs[..|rs| - 1]);
      if exists j :: 0 <= j < |rs| && rs[j].Some? {
        var j :| 0 <= j < |rs| && rs[j].Some?;
        if j < |rs| - 1 { assert rs[..|rs| - 1][j].Some?; }
      }
    }
  }

  /** A validator yields a rejection. */
  predicate Rejects(v: ValidatorRun)
  {
    exists j :: 0 <= j < |v.rejections| && v.rejections[j].Some?
  }

  /** A validator yields an approval that is drained. */
  predicate Approves(v: ValidatorRun)
  {
    exists j :: 0 <= j < |DrainedApprovals(v)| && DrainedApprovals(v)[j].Some?
  }

  /** When no validator rejects, every reason met is an approval. */
  lemma {:induction false} SignalsWithoutRejections(vs: seq<ValidatorRun>)
    requires forall i :: 0 <= i < |vs| ==> !Rejects(vs[i])
    ensures forall k :: 0 <= k < |Signals(vs)| ==> Signals(vs)[k].Approve?
  {
    if vs != [] {
      var last := vs[|vs| - 1];
      SignalsWithoutRejections(vs[..|vs| - 1]);
      RejectSignalsOfNones(last.rejections);
      ApproveSignalsAreApprovals(DrainedApprovals(last));
    }
  }

  /** A signal anywhere in the list leaves its text in the corresponding text list. */
  lemma {:induction false} TextsOfMember(ss: seq<Signal>, k: nat)
    requires k < |ss|
    ensures ss[k].Reject? ==> RejectTexts(ss) != []
    ensures ss[k].Approve? ==> ApproveTexts(ss) != []
  {
    if k < |ss| - 1 {
      TextsOfMember(ss[..|ss| - 1], k);
    }
  }

  /** After an approving validator that no later validator contradicts, the last reason met approves. */
  lemma LastReasonApproves(vs: seq<ValidatorRun>, j: nat)
    requires j < |vs| && Approves(vs[j])
    requires forall k :: j < k < |vs| ==> !Rejects(vs[k])
    ensures Signals(vs) != [] && Signals(vs)[|Signals(vs)| - 1].Approve?
  {
    SignalsAround(vs, j);
    var x, z := Signals(vs[..j]), Signals(vs[j + 1..]);
    var r, a := RejectSignals(vs[j].rejections), ApproveSignals(DrainedApprovals(vs[j]));
    SignalsWithoutRejections(vs[j + 1..]);
    ApproveSignalsAreApprovals(DrainedApprovals(vs[j]));
    Assoc(x, r, a);
    assert Signals(vs) == ((x + r) + a) + z;
    LastOfMiddle(x + r, a, z);
  }

  /** A rejecting validator leaves a rejection among the reasons met. */
  lemma RejectionIsMet(vs: seq<ValidatorRun>, i: nat)
    requires i < |vs| && Rejects(vs[i])
    ensures RejectTexts(Signals(vs)) != []
  {
    SignalsAround(vs, i);
    var p, z := Signals(vs[..i]), Signals(vs[i + 1..]);
    var ri := RejectSignals(vs[i].rejections);
    RejectSignalsAreRejections(vs[i].rejections);
    var m := ri + ApproveSignals(DrainedApprovals(vs[i]));
    FirstOfMiddle(p, m, z);
    TextsOfMember(Signals(vs), |p|);
  }

  /**
   * The override rule: once validator j approves and no later validator
   * rejects, the member is approved, whatever came before; the rejections
   * of an earlier validator i are still reported.
   */
  lemma LaterApprovalOverrides(vs: seq<ValidatorRun>, i: nat, j: nat)
    requires i < j < |vs|
    requires Rejects(vs[i]) && Approves(vs[j])
    requires forall k :: j < k < |vs| ==> !Rejects(vs[k])
    ensures Aggregate(vs).approved
    ensures Aggregate(vs).rejectionReasons != [] && Aggregate(vs).approvalReasons != []
  {
    LastReasonApproves(vs, j);
    TextsOfMember(Signals(vs), |Signals(vs)| - 1);
    RejectionIsMet(vs, i);
    AggregateShape(vs);
  }

  /** A validator that yields approvals never. */
  predicate RejectOnly(v: ValidatorRun)
  {
    !Approves(v)
  }

  lemma RunSignalsOfRejectOnly(v: ValidatorRun)
    requires RejectOnly(v)
    ensures RunSignals(v) == RejectSignals(v.rejections)
    ensures forall k :: 0 <= k < |RunSignals(v)| ==> RunSignals(v)[k].Reject?
  {
    ApproveSignalsOfNones(DrainedApprovals(v));
    RejectSignalsAreRejections(v.rejections);
    assert RejectSignals(v.rejections) + [] == RejectSignals(v.rejections);
  }

  lemma {:induction false} TextsAppend(a: seq<Signal>, b: seq<Signal>)
    ensures RejectTexts(a + b) == RejectTexts(a) + RejectTexts(b)
    ensures ApproveTexts(a + b) == ApproveTexts(a) + ApproveTexts(b)
  {
    if b == [] {
      assert a + b == a;
    } else {
      var init, last := b[..|b| - 1], b[|b| - 1];
      Snoc(a, b);
      TextsAppend(a, init);
      Assoc(RejectTexts(a), RejectTexts(init), if last.Reject? then [last.text] else []);
      Assoc(ApproveTexts(a), ApproveTexts(init), if last.Approve? then [last.text] else []);
    }
  }

  lemma {:induction false} NoApproveTexts(ss: seq<Signal>)
    requires forall k :: 0 <= k < |ss| ==> ss[k].Reject?
    ensures ApproveTexts(ss) == []
  {
    if ss != [] { NoApproveTexts(ss[..|ss| - 1]); }
  }

  lemma PairSignals(x: ValidatorRun, y: ValidatorRun)
    ensures Signals([x, y]) == RunSignals(x) + RunSignals(y)
  {
    assert [x][..0] == [];
    assert Signals([x]) == RunSignals(x);
    assert [x, y][..1] == [x];
  }

  /** The reasons of a chain with two neighbouring validators x, y in the middle. */
  lemma SignalsOfMiddlePair(a: seq<ValidatorRun>, x: ValidatorRun, y: ValidatorRun, b: seq<ValidatorRun>)
    ensures Signals(a + [x, y] + b) == Signals(a) + (RunSignals(x) + RunSignals(y)) + Signals(b)
  {
    SignalsAppend(a + [x, y], b);
    SignalsAppend(a, [x, y]);
    PairSignals(x, y);
  }

  /** Two runs of rejections met in either order leave the same verdict. */
  lemma SwappedMiddleSameVerdict(sa: seq<Signal>, sx: seq<Signal>, sy: seq<Signal>, sb: seq<Signal>)
    requires forall k :: 0 <= k < |sx| ==> sx[k].Reject?
    requires forall k :: 0 <= k < |sy| ==> sy[k].Reject?
    ensures EndsApproved(sa + (sx + sy) + sb) <==> EndsApproved(sa + (sy + sx) + sb)
  {
    if sb == [] && sx + sy != [] {
      LastOfMiddle(sa, sx + sy, sb);
      LastOfMiddle(sa, sy + sx, sb);
    } else if sb != [] {
      LastOfMiddle(sa + (sx + sy), sb, []);
      LastOfMiddle(sa + (sy + sx), sb, []);
      assert sa + (sx + sy) + sb + [] == sa + (sx + sy) + sb;
      assert sa + (sy + sx) + sb + [] == sa + (sy + sx) + sb;
    } else {
      assert sy + sx == [];
    }
  }

  /** Two runs of rejections met in either order leave the same texts, up to the order of rejections. */
  lemma SwappedMiddleSameTexts(sa: seq<Signal>, sx: seq<Signal>, sy: seq<Signal>, sb: seq<Signal>)
    requires forall k :: 0 <= k < |sx| ==> sx[k].Reject?
    requires forall k :: 0 <= k < |sy| ==> sy[k].Reject?
    ensures ApproveTexts(sa + (sx + sy) + sb) == ApproveTexts(sa + (sy + sx) + sb)
    ensures multiset(RejectTexts(sa + (sx + sy) + sb)) == multiset(RejectTexts(sa + (sy + sx) + sb))
  {
    TextsAppend(sa + (sx + sy), sb);
    TextsAppend(sa + (sy + sx), sb);
    TextsAppend(sa, sx + sy);
    TextsAppend(sa, sy + sx);
    TextsAppend(sx, sy);
    TextsAppend(sy, sx);
    NoApproveTexts(sx);
    NoApproveTexts(sy);
  }

  /**
   * Swapping two neighbouring validators that only ever reject may change the
   * order of the rejection reasons, never the verdict or the reasons reported.
   */
  lemma SwapRejectorsKeepsVerdict(vs: seq<ValidatorRun>, i: nat)
    requires i + 1 < |vs|
    requires RejectOnly(vs[i]) && RejectOnly(vs[i + 1])
    ensures var ws := vs[i := vs[i + 1]][i + 1 := vs[i]];
      && Aggregate(ws).approved == Aggregate(vs).approved
      && Aggregate(ws).approvalReasons == Aggregate(vs).approvalReasons
      && multiset(Aggregate(ws).rejectionReasons) == multiset(Aggregate(vs).rejectionReasons)
  {
    var ws := vs[i := vs[i + 1]][i + 1 := vs[i]];
    var a, x, y, b := vs[..i], vs[i], vs[i + 1], vs[i + 2..];
    assert vs == a + [x, y] + b;
    assert ws == a + [y, x] + b;
    SignalsOfMiddlePair(a, x, y, b);
    SignalsOfMiddlePair(a, y, x, b);
    RunSignalsOfRejectOnly(x);
    RunSignalsOfRejectOnly(y);
    AggregateShape(vs);
    AggregateShape(ws);
    SwappedMiddleSameVerdict(Signals(a), RunSignals(x), RunSignals(y), Signals(b));
    SwappedMiddleSameTexts(Signals(a), RunSignals(x), RunSignals(y), Signals(b));
  }

  /**
   * A validator that raises does not end the pass: the reasons it yielded before
   * raising are kept, and every later validator still contributes its own.
   */
  lemma FaultIsIsolated(vs: seq<ValidatorRun>, i: nat)
    requires i < |vs| && vs[i].fault != Completed
    ensures Signals(vs) == Signals(vs[..i]) + (RejectSignals(vs[i].rejections)
      + (if vs[i].fault == RaisedInApprovals then ApproveSignals(vs[i].approvals) else []))
      + Signals(vs[i + 1..])
  {
    SignalsAround(vs, i);
  }

  // ---------------------------------------------------------------------------
  // _chunk_iter
  // ---------------------------------------------------------------------------

  /** The size at which a chunk is cut: a chunk is cut once it holds `chunkSize` elements, and never empty. */
  function ChunkWidth(chunkSize: int): nat
  {
    if chunkSize < 1 then 1 else chunkSize
  }

  /**
   * `_chunk_iter`: splits `src` into consecutive batches. Every batch but the
   * last is full; the last one is always produced, short and possibly empty.
   */
  method ChunkIter<T>(src: seq<T>, chunkSize: int) returns (chunks: seq<seq<T>>)
    ensures Flatten(chunks) == src
    ensures |chunks| >= 1
    ensures forall k :: 0 <= k < |chunks| - 1 ==> |chunks[k]| == ChunkWidth(chunkSize)
    ensures |chunks[|chunks| - 1]| < ChunkWidth(chunkSize)
    ensures |chunks| == |src| / ChunkWidth(chunkSize) + 1
  {
    var w := ChunkWidth(chunkSize);
    chunks := [];
    var chunk: seq<T> := [];
    for i := 0 to |src|
      invariant Flatten(chunks) + chunk == src[..i]
      invariant forall k :: 0 <= k < |chunks| ==> |chunks[k]| == w
      invariant |chunk| < w
      invariant |chunks| * w + |chunk| == i
    {
      assert src[..i + 1] == src[..i] + [src[i]];
      chunk := chunk + [src[i]];
      if |chunk| >= chunkSize {
        assert |chunk| == w;
        assert (chunks + [chunk])[..|chunks|] == chunks;
        MulSucc(|chunks|, w);
        chunks := chunks + [chunk];
        chunk := [];
      }
    }
    assert (chunks + [chunk])[..|chunks|] == chunks;
    assert src[..|src|] == src;
    DivOfQuotient(|src|, |chunks|, |chunk|, w);
    chunks := chunks + [chunk];
  }

  lemma MulSucc(a: nat, w: nat)
    ensures (a + 1) * w == a * w + w
  {
  }

  lemma DivOfQuotient(n: nat, q: nat, r: nat, w: nat)
    requires w > 0 && r < w && n == q * w + r
    ensures n / w == q
  {
    var q', r' := n / w, n % w;
    assert n == q' * w + r';
    if q' < q {
      MulStrict(q', q, w);
    } else if q' > q {
      MulStrict(q, q', w);
    }
  }

  lemma {:induction false} MulStrict(a: nat, b: nat, w: nat)
    requires a < b
    ensures a * w + w <= b * w
    decreases b - a
  {
    assert (a + 1) * w == a * w + w;
    if a + 1 < b {
      MulStrict(a + 1, b, w);
    }
  }

  // ---------------------------------------------------------------------------
  // Purge of unverified members
  // ---------------------------------------------------------------------------

  /** Time is counted in whole seconds. */
  const PURGE_LOOKBACK: int := 6 * 60 * 60

  /** A guild member; `boosting` is set while the member boosts the guild (a premium subscriber). */
  datatype Member = Member(id: nat, bot: bool, boosting: bool, roles: set<nat>, joinedAt: Option<int>)

  /** A guild as the purge sees it: the roles it defines, whether the bot may kick, its members. */
  datatype Guild = Guild(roles: set<nat>, botCanKick: bool, members: seq<Member>)

  /** A guild's validation configuration, from the relational config store. */
  datatype ValidationConfig = ValidationConfig(guildId: nat, validationRoleId: nat, isPropagated: bool)

  /**
   * `_is_kickable`, as its comment and guard are evidently meant: not a bot,
   * not a booster, and joined at or before `checkTime` (a member whose join
   * time is unknown is not kicked).
   */
  predicate IsKickable(m: Member, checkTime: int)
  {
    !m.bot && !m.boosting && m.joinedAt.Some? && m.joinedAt.value <= checkTime
  }

  /** Members without the validation role that are kickable, in roster order. */
  function KickableWithoutRole(members: seq<Member>, role: nat, checkTime: int): seq<Member>
  {
    if members == [] then []
    else
      var m := members[|members| - 1];
      KickableWithoutRole(members[..|members| - 1], role, checkTime)
        + (if role !in m.roles && IsKickable(m, checkTime) then [m] else [])
  }

  /** A configuration whose guild the purge processes: propagated, guild known, role present, kick allowed. */
  predicate Processed(c: ValidationConfig, guilds: map<nat, Guild>)
  {
    c.isPropagated && c.guildId in guilds
      && c.validationRoleId in guilds[c.guildId].roles && guilds[c.guildId].botCanKick
  }

  /** The members that the purge kicks, guild by guild in configuration order. */
  function Candidates(configs: seq<ValidationConfig>, guilds: map<nat, Guild>, checkTime: int): seq<Member>
  {
    if configs == [] then []
    else
      var c := configs[|configs| - 1];
      Candidates(configs[..|configs| - 1], guilds, checkTime)
        + (if Processed(c, guilds) then KickableWithoutRole(guilds[c.guildId].members, c.validationRoleId, checkTime) else [])
  }

  /**
   * The candidate selection of `purge_unverified`: for each propagated
   * configuration, skip guilds whose validation role is gone or where the bot
   * may not kick, and collect the kickable members lacking the role.
   */
  method SelectPurgeCandidates(configs: seq<ValidationConfig>, guilds: map<nat, Guild>, now: int)
    returns (candidates: seq<Member>)
    ensures candidates == Candidates(configs, guilds, now - PURGE_LOOKBACK)
  {
    var checkTime := now - PURGE_LOOKBACK;
    candidates := [];
    for i := 0 to |configs|
      invariant candidates == Candidates(configs[..i], guilds, checkTime)
    {
      assert configs[..i + 1][..i] == configs[..i];
      var conf := configs[i];
      if !conf.isPropagated || conf.guildId !in guilds {
        continue;
      }
      var guild := guilds[conf.guildId];
      if conf.validationRoleId !in guild.roles || !guild.botCanKick {
        continue;
      }
      ghost var base := candidates;
      for j := 0 to |guild.members|
        invariant candidates == base + KickableWithoutRole(guild.members[..j], conf.validationRoleId, checkTime)
      {
        assert guild.members[..j + 1][..j] == guild.members[..j];
        var m := guild.members[j];
        if conf.validationRoleId !in m.roles && IsKickable(m, checkTime) {
          candidates := candidates + [m];
        }
      }
      assert guild.members[..|guild.members|] == guild.members;
    }
    assert configs[..|configs|] == configs;
  }

  lemma {:induction false} KickableWithoutRoleIff(members: seq<Member>, role: nat, checkTime: int, m: Member)
    ensures m in KickableWithoutRole(members, role, checkTime)
      <==> m in members && role !in m.roles && IsKickable(m, checkTime)
  {
    if members != [] {
      KickableWithoutRoleIff(members[..|members| - 1], role, checkTime, m);
      assert members == members[..|members| - 1] + [members[|members| - 1]];
    }
  }

  /**
   * Exactly the members, neither bots nor boosters, lacking the validation role who joined at least
   * six hours before `now`, of guilds with a propagated configuration, a
   * present validation role and kick permission, are purge candidates.
   */
  lemma {:induction false} CandidateIff(configs: seq<ValidationConfig>, guilds: map<nat, Guild>, now: int, m: Member)
    ensures m in Candidates(configs, guilds, now - PURGE_LOOKBACK) <==>
      exists c :: c in configs && Processed(c, guilds) && m in guilds[c.guildId].members
        && c.validationRoleId !in m.roles
        && !m.bot && !m.boosting && m.joinedAt.Some? && m.joinedAt.value <= now - PURGE_LOOKBACK
  {
    if configs != [] {
      var init, c := configs[..|configs| - 1], configs[|configs| - 1];
      CandidateIff(init, guilds, now, m);
      assert configs == init + [c];
      if Processed(c, guilds) {
        KickableWithoutRoleIff(guilds[c.guildId].members, c.validationRoleId, now - PURGE_LOOKBACK, m);
      }
    }
  }

  // ---------------------------------------------------------------------------
  // The purge selection as the source writes it
  // ---------------------------------------------------------------------------

  /**
   * `_is_kickable` as written: the tuple of checks is built before `all` looks
   * at it, so `joined_at <= check_time` is evaluated even when `joined_at` is
   * None, and that comparison raises a TypeError. No check looks at boosting,
   * although the comment above the checks lists boosters as never kicked.
   */
  function IsKickableAsWritten(m: Member, checkTime: int): (r: Result<bool>)
    ensures m.joinedAt.None? <==> r.Raised?
    ensures r.Ok? ==> (r.value <==> !m.bot && m.joinedAt.value <= checkTime)
    ensures r.Ok? && !m.boosting ==> r.value == IsKickable(m, checkTime)
  {
    if m.joinedAt.None? then Raised("TypeError")
    else Ok(!m.bot && m.joinedAt.value <= checkTime)
  }

  /** The roster filter as written: the first exception ends it. */
  function KickableAsWritten(members: seq<Member>, role: nat, checkTime: int): Result<seq<Member>>
  {
    if members == [] then Ok([])
    else
      var m := members[0];
      var rest := KickableAsWritten(members[1..], role, checkTime);
      if role in m.roles then rest
      else match IsKickableAsWritten(m, checkTime)
        case Raised(e) => Raised(e)
        case Ok(k) => if rest.Raised? then rest else Ok((if k then [m] else []) + rest.value)
  }

  /**
   * The candidate loop as written: `bot.get_guild` yields None for a guild the
   * bot is not in, and `guild.get_role` on it raises an AttributeError; any
   * exception ends the whole pass before a single member is kicked.
   */
  function PurgeAsWritten(configs: seq<ValidationConfig>, guilds: map<nat, Guild>, checkTime: int): Result<seq<Member>>
  {
    if configs == [] then Ok([])
    else
      var c := configs[0];
      var rest := PurgeAsWritten(configs[1..], guilds, checkTime);
      if !c.isPropagated then rest
      else if c.guildId !in guilds then Raised("AttributeError")
      else if c.validationRoleId !in guilds[c.guildId].roles || !guilds[c.guildId].botCanKick then rest
      else match KickableAsWritten(guilds[c.guildId].members, c.validationRoleId, checkTime)
        case Raised(e) => Raised(e)
        case Ok(here) => if rest.Raised? then rest else Ok(here + rest.value)
  }

  /**
   * One unverified member whose join time is unknown makes the purge as
   * written raise, so a member who has been unverified for seven hours in the
   * same guild is not kicked; the corrected selection kicks that member.
   */
  lemma JoinedAtNoneAbortsPurge()
    ensures var unknown := Member(1, false, false, {}, None);
      var stale := Member(2, false, false, {}, Some(0));
      var guilds := map[10 := Guild({7}, true, [unknown, stale])];
      var configs := [ValidationConfig(10, 7, true)];
      && PurgeAsWritten(configs, guilds, 7 * 3600 - PURGE_LOOKBACK).Raised?
      && Candidates(configs, guilds, 7 * 3600 - PURGE_LOOKBACK) == [stale]
  {
    var unknown := Member(1, false, false, {}, None);
    var stale := Member(2, false, false, {}, Some(0));
    var guilds := map[10 := Guild({7}, true, [unknown, stale])];
    var configs := [ValidationConfig(10, 7, true)];
    var t := 7 * 3600 - PURGE_LOOKBACK;
    assert [unknown, stale][1..] == [stale];
    assert [stale][1..] == [];
    assert KickableAsWritten([unknown, stale], 7, t).Raised?;
    assert [unknown, stale][..1] == [unknown];
    assert [unknown][..0] == [];
    assert KickableWithoutRole([unknown], 7, t) == [];
    assert KickableWithoutRole([unknown, stale], 7, t) == [stale];
    assert Candidates(configs, guilds, t) == Candidates([], guilds, t) + [stale];
    assert configs[..0] == [];
  }

  /**
   * A propagated configuration for a guild the bot has left makes the purge as
   * written raise, so members of the other guilds are not kicked either.
   */
  lemma MissingGuildAbortsPurge()
    ensures var stale := Member(2, false, false, {}, Some(0));
      var guilds := map[10 := Guild({7}, true, [stale])];
      var configs := [ValidationConfig(11, 7, true), ValidationConfig(10, 7, true)];
      && PurgeAsWritten(configs, guilds, 7 * 3600 - PURGE_LOOKBACK).Raised?
      && Candidates(configs, guilds, 7 * 3600 - PURGE_LOOKBACK) == [stale]
  {
    var stale := Member(2, false, false, {}, Some(0));
    var guilds := map[10 := Guild({7}, true, [stale])];
    var configs := [ValidationConfig(11, 7, true), ValidationConfig(10, 7, true)];
    var t := 7 * 3600 - PURGE_LOOKBACK;
    assert [stale][..0] == [];
    assert KickableWithoutRole([stale], 7, t) == [stale];
    assert configs[..1] == [ValidationConfig(11, 7, true)];
    assert configs[..1][..0] == [];
    assert Candidates(configs[..1], guilds, t) == [];
    assert Candidates(configs, guilds, t) == Candidates(configs[..1], guilds, t) + [stale];
    assert configs[1..] == [ValidationConfig(10, 7, true)];
    assert PurgeAsWritten(configs, guilds, t).Raised?;
  }

  /**
   * A booster who joined seven hours ago and never took the validation role is
   * kicked by the purge as written; the corrected selection keeps the booster.
   */
  lemma BoosterKickedAsWritten()
    ensures var booster := Member(3, false, true, {}, Some(0));
      var guilds := map[10 := Guild({7}, true, [booster])];
      var configs := [ValidationConfig(10, 7, true)];
      && PurgeAsWritten(configs, guilds, 7 * 3600 - PURGE_LOOKBACK) == Ok([booster])
      && Candidates(configs, guilds, 7 * 3600 - PURGE_LOOKBACK) == []
  {
    var booster := Member(3, false, true, {}, Some(0));
    var guilds := map[10 := Guild({7}, true, [booster])];
    var configs := [ValidationConfig(10, 7, true)];
    var t := 7 * 3600 - PURGE_LOOKBACK;
    assert [booster][1..] == [];
    assert KickableAsWritten([], 7, t) == Ok([]);
    assert IsKickableAsWritten(booster, t) == Ok(true);
    assert [booster] + [] == [booster];
    assert KickableAsWritten([booster], 7, t) == Ok([booster]);
    assert configs[1..] == [];
    assert [booster][..0] == [];
    assert KickableWithoutRole([booster], 7, t) == [];
    assert configs[..0] == [];
  }

  /**
   * Where the source raises nothing and no member lacking the role boosts the
   * guild, the selection as written agrees with the corrected one.
   */
  lemma {:induction false} KickableAsWrittenAgrees(members: seq<Member>, role: nat, checkTime: int)
    requires forall k :: 0 <= k < |members| && role !in members[k].roles ==>
      members[k].joinedAt.Some? && !members[k].boosting
    ensures KickableAsWritten(members, role, checkTime) == Ok(KickableWithoutRole(members, role, checkTime))
  {
    if members != [] {
      var m, ms := members[0], members[1..];
      assert forall k :: 0 <= k < |ms| ==> ms[k] == members[k + 1];
      KickableAsWrittenAgrees(ms, role, checkTime);
      KickableWithoutRolePrepend(m, ms, role, checkTime);
      assert members == [m] + ms;
      var here := if role !in m.roles && IsKickable(m, checkTime) then [m] else [];
      assert KickableWithoutRole(members, role, checkTime) == here + KickableWithoutRole(ms, role, checkTime);
      if role !in m.roles {
        assert m.joinedAt.Some? && !m.boosting by { assert members[0] == m; }
        assert IsKickableAsWritten(m, checkTime) == Ok(IsKickable(m, checkTime));
      } else {
        assert here + KickableWithoutRole(ms, role, checkTime) == KickableWithoutRole(ms, role, checkTime);
      }
    }
  }

  lemma {:induction false} KickableWithoutRolePrepend(m: Member, ms: seq<Member>, role: nat, checkTime: int)
    ensures KickableWithoutRole([m] + ms, role, checkTime)
      == (if role !in m.roles && IsKickable(m, checkTime) then [m] else []) + KickableWithoutRole(ms, role, checkTime)
  {
    if ms == [] {
      assert [m] + ms == [m];
      assert [m][..0] == [];
    } else {
      assert ([m] + ms)[..|[m] + ms| - 1] == [m] + ms[..|ms| - 1];
      KickableWithoutRolePrepend(m, ms[..|ms| - 1], role, checkTime);
    }
  }
}
