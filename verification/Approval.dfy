/** Business approvals: a request, the decisions recorded against it, and its status. */
module Approval {
  import opened Basics

  datatype Status = Pending | Approved | Rejected

  /** A decision is any text; the table's CHECK admits two of them. */
  datatype Choice = Approve | Reject | Other(text: string)

  datatype Decision = Decision(staff: Option<string>, choice: Choice)

  datatype Request = Request(requestedBy: string, required: int, status: Status, decisions: seq<Decision>)

  /** The distinct staff who approved; an unknown decider counts for nobody. */
  function Approvers(ds: seq<Decision>): set<string>
  {
    set d | d in ds && d.choice == Approve && d.staff.Some? :: d.staff.value
  }

  predicate Refused(ds: seq<Decision>)
  {
    exists d :: d in ds && d.choice == Reject
  }

  datatype Error = NotFound | NotPending | SelfApproval | InvalidKind | ConstraintFailed

  // ---------------------------------------------------------------- one statement at a time

  predicate Readable(r: Request, staff: string)
  {
    r.status == Pending && !(staff != "" && staff == r.requestedBy)
  }

  function Insert(r: Request, staff: string, choice: Choice): Request
  {
    r.(decisions := r.decisions + [Decision(NullIfEmpty(staff), choice)])
  }

  /** The status a decision computes from the decisions recorded so far. */
  function Outcome(r: Request, choice: Choice): Status
  {
    if choice == Reject then Rejected
    else if |Approvers(r.decisions)| >= r.required then Approved
    else Pending
  }

  function Update(r: Request, status: Status): Request
  {
    if status != Pending then r.(status := status) else r
  }

  /** A whole decision with nothing in between. */
  function Record(r: Request, staff: string, choice: Choice): Result<Request, Error>
  {
    if r.status != Pending then Err(NotPending)
    else if staff != "" && staff == r.requestedBy then Err(SelfApproval)
    else if choice.Other? then Err(ConstraintFailed)
    else
      var r' := Insert(r, staff, choice);
      Ok(Update(r', Outcome(r', choice)))
  }

  // ---------------------------------------------------------------- the repository

  class Repo {
    var requests: map<string, Request>

    constructor ()
      ensures requests == map[]
    {
      requests := map[];
    }

    /** A number of required approvals left at zero means one. The insert needs a fresh uuid, and a
        target and requester that exist. */
    method CreateApprovalRequest(uuid: string, validKind: bool, referencesExist: bool, requestedBy: string,
                                 required: int)
      returns (r: Result<Request, Error>)
      modifies this
      ensures r == if !validKind then Err(InvalidKind)
                   else if uuid in old(requests) || !referencesExist then Err(ConstraintFailed)
                   else Ok(Request(requestedBy, if required == 0 then 1 else required, Pending, []))
      ensures requests == if r.Ok? then old(requests)[uuid := r.value] else old(requests)
    {
      if !validKind {
        return Err(InvalidKind);
      }
      var n := required;
      if n == 0 {
        n := 1;
      }
      if uuid in requests || !referencesExist {
        return Err(ConstraintFailed);
      }
      var request := Request(requestedBy, n, Pending, []);
      requests := requests[uuid := request];
      return Ok(request);
    }

    method RecordApprovalDecision(uuid: string, staff: string, choice: Choice) returns (r: Result<Request, Error>)
      modifies this
      ensures r == if uuid !in old(requests) then Err(NotFound) else Record(old(requests)[uuid], staff, choice)
      ensures requests == if r.Ok? then old(requests)[uuid := r.value] else old(requests)
    {
      if uuid !in requests {
        return Err(NotFound);
      }
      var request := requests[uuid];
      if request.status != Pending {
        return Err(NotPending);
      }
      if staff != "" && staff == request.requestedBy {
        return Err(SelfApproval);
      }
      if choice.Other? {
        return Err(ConstraintFailed);
      }
      request := Insert(request, staff, choice);
      var status := Pending;
      if choice == Reject {
        status := Rejected;
      } else {
        var count := CountApprovers(request.decisions);
        if count >= request.required {
          status := Approved;
        }
      }
      if status != Pending {
        request := request.(status := status);
      }
      requests := requests[uuid := request];
      return Ok(request);
    }
  }

  method CountApprovers(ds: seq<Decision>) returns (n: nat)
    ensures n == |Approvers(ds)|
  {
    var seen: set<string> := {};
    for i := 0 to |ds|
      invariant seen == Approvers(ds[..i])
    {
      assert ds[..i + 1] == ds[..i] + [ds[i]];
      if ds[i].choice == Approve && ds[i].staff.Some? {
        seen := seen + {ds[i].staff.value};
      }
    }
    assert ds[..|ds|] == ds;
    return |seen|;
  }

  // ---------------------------------------------------------------- runs of whole decisions

  /** Nobody's own request is decided by them. */
  predicate NoSelfDecision(r: Request)
  {
    r.requestedBy != "" ==> forall d :: d in r.decisions ==> d.staff != Some(r.requestedBy)
  }

  /** Pending exactly while there is no rejection and too few approvers; approved only by enough
      distinct others and without a rejection; rejected only by a rejection. */
  predicate Consistent(r: Request)
  {
    && NoSelfDecision(r)
    && (r.status == Pending <==> !Refused(r.decisions) && |Approvers(r.decisions)| < r.required)
    && (r.status == Approved ==> !Refused(r.decisions) && |Approvers(r.decisions)| >= r.required)
    && (r.status == Rejected ==> Refused(r.decisions))
  }

  datatype Step = Step(staff: string, choice: Choice)

  /** A run of decisions, refused ones leaving the request alone. */
  function After(r: Request, steps: seq<Step>): Request
  {
    if steps == [] then r
    else
      var before := After(r, steps[..|steps| - 1]);
      var last := steps[|steps| - 1];
      var result := Record(before, last.staff, last.choice);
      if result.Ok? then result.value else before
  }

  /** Every run of decisions on a new request that needs at least one approval. */
  lemma {:induction false} QuorumOverAllRuns(requestedBy: string, required: int, steps: seq<Step>)
    requires required >= 1
    ensures Consistent(After(Request(requestedBy, required, Pending, []), steps))
    decreases |steps|
  {
    var r := Request(requestedBy, required, Pending, []);
    if steps == [] {
      assert Approvers([]) == {};
    } else {
      var last := steps[|steps| - 1];
      var before := After(r, steps[..|steps| - 1]);
      QuorumOverAllRuns(requestedBy, required, steps[..|steps| - 1]);
    }
  }

  /** A closed request is closed for good. */
  lemma {:induction false} ClosedNeverChanges(r: Request, steps: seq<Step>)
    requires r.status != Pending
    ensures After(r, steps) == r
    decreases |steps|
  {
    if steps != [] {
      ClosedNeverChanges(r, steps[..|steps| - 1]);
    }
  }

  /** Approvals by others, one after the other. */
  function Approvals(names: seq<string>): seq<Step>
  {
    seq(|names|, i requires 0 <= i < |names| => Step(names[i], Approve))
  }

  /** The request is approved as soon as the required number of distinct others have approved, however
      often they do, and pending until then with every one of them on record. */
  lemma {:induction false} EnoughApproversApprove(requestedBy: string, required: int, names: seq<string>)
    requires required >= 1
    requires forall i :: 0 <= i < |names| ==> names[i] != "" && names[i] != requestedBy
    ensures var r := After(Request(requestedBy, required, Pending, []), Approvals(names));
      && r.requestedBy == requestedBy && r.required == required
      && (if |Elements(names)| >= required then r.status == Approved
          else r.status == Pending && Approvers(r.decisions) == Elements(names))
    decreases |names|
  {
    if names == [] {
      assert Approvers([]) == {};
    } else {
      var init, last := names[..|names| - 1], names[|names| - 1];
      var r := After(Request(requestedBy, required, Pending, []), Approvals(init));
      assert names == init + [last];
      EnoughApproversApprove(requestedBy, required, init);
      assert Approvals(names)[..|names| - 1] == Approvals(init);
      ElementsAppend(init, last);
      SubsetCount(Elements(init), Elements(names));
      if |Elements(init)| < required {
        OneMoreApprover(r.decisions, last);
      }
    }
  }

  lemma OneMoreApprover(ds: seq<Decision>, staff: string)
    ensures Approvers(ds + [Decision(Some(staff), Approve)]) == Approvers(ds) + {staff}
  {
    var d := Decision(Some(staff), Approve);
    assert forall x :: x in ds + [d] <==> x in ds || x == d;
  }

  /** One rejection by another closes a pending request, whatever was approved before. */
  lemma OneRejectionRejects(r: Request, staff: string)
    requires r.status == Pending && (staff == "" || staff != r.requestedBy)
    ensures Record(r, staff, Reject).Ok? && Record(r, staff, Reject).value.status == Rejected
  {
  }

  // ---------------------------------------------------------------- interleaved decisions

  /** Recording a decision opens no transaction of its own. Its caller may open one around it, and
      then only whole decisions happen; what follows is about a caller that does not. A call has got
      to one of these points between its statements. */
  datatype Phase = Start | Reading | Inserted | Counted(status: Status) | Done

  datatype Caller = Caller(staff: string, choice: Choice, phase: Phase)

  datatype System = System(request: Request, callers: seq<Caller>)

  /** The next statement of caller i. */
  function Advance(s: System, i: nat): System
    requires i < |s.callers|
  {
    var c := s.callers[i];
    match c.phase
    case Start => s.(callers := s.callers[i := c.(phase := if Readable(s.request, c.staff) then Reading else Done)])
    case Reading =>
      if c.choice.Other? then s.(callers := s.callers[i := c.(phase := Done)])
      else System(Insert(s.request, c.staff, c.choice), s.callers[i := c.(phase := Inserted)])
    case Inserted => s.(callers := s.callers[i := c.(phase := Counted(Outcome(s.request, c.choice)))])
    case Counted(status) => System(Update(s.request, status), s.callers[i := c.(phase := Done)])
    case Done => s
  }

  predicate Schedulable(s: System, schedule: seq<nat>)
  {
    forall k :: 0 <= k < |schedule| ==> schedule[k] < |s.callers|
  }

  function Interleave(s: System, schedule: seq<nat>): System
    requires Schedulable(s, schedule)
    ensures |Interleave(s, schedule).callers| == |s.callers|
  {
    if schedule == [] then s
    else
      var before := Interleave(s, schedule[..|schedule| - 1]);
      Advance(before, schedule[|schedule| - 1])
  }

  /** What survives any interleaving: approval always has its quorum of others, and rejection its
      rejection, in the status and in every status a caller is about to write. */
  ghost predicate Backed(r: Request, status: Status)
  {
    && (status == Approved ==> |Approvers(r.decisions)| >= r.required)
    && (status == Rejected ==> Refused(r.decisions))
  }

  ghost predicate Safe(s: System)
  {
    && NoSelfDecision(s.request)
    && Backed(s.request, s.request.status)
    && forall c :: c in s.callers ==>
         && (c.phase.Counted? ==> Backed(s.request, c.phase.status))
         && (c.phase.Reading? && s.request.requestedBy != "" ==> c.staff != s.request.requestedBy)
         && (c.phase.Inserted? && c.choice == Reject ==> Refused(s.request.decisions))
  }

  lemma InsertGrows(r: Request, staff: string, choice: Choice, status: Status)
    requires Backed(r, status)
    ensures Backed(Insert(r, staff, choice), status)
    ensures choice == Reject ==> Refused(Insert(r, staff, choice).decisions)
    ensures Refused(r.decisions) ==> Refused(Insert(r, staff, choice).decisions)
  {
    var r' := Insert(r, staff, choice);
    assert r'.decisions[|r.decisions|] == Decision(NullIfEmpty(staff), choice);
    assert forall x :: x in r.decisions ==> x in r'.decisions;
    SubsetCount(Approvers(r.decisions), Approvers(r'.decisions));
  }

  lemma AdvanceKeepsSafe(s: System, i: nat)
    requires Safe(s) && i < |s.callers|
    ensures Safe(Advance(s, i))
  {
    var c, s' := s.callers[i], Advance(s, i);
    assert c in s.callers;
    forall x | x in s'.callers && x != s'.callers[i]
      ensures x in s.callers
    {
    }
    if c.phase.Reading? && !c.choice.Other? {
      InsertGrows(s.request, c.staff, c.choice, s.request.status);
      forall x | x in s.callers && x.phase.Counted?
        ensures Backed(s'.request, x.phase.status)
      {
        InsertGrows(s.request, c.staff, c.choice, x.phase.status);
      }
    }
  }

  /** In every interleaving of any number of calls on a new request, an approved request has at least
      the required number of distinct approvers other than the requester. */
  lemma {:induction false} InterleavingIsSafe(requestedBy: string, required: int, callers: seq<Caller>,
                                              schedule: seq<nat>)
    requires required >= 1 && forall c :: c in callers ==> c.phase.Start?
    requires forall k :: 0 <= k < |schedule| ==> schedule[k] < |callers|
    ensures Safe(Interleave(System(Request(requestedBy, required, Pending, []), callers), schedule))
    decreases |schedule|
  {
    if schedule != [] {
      InterleavingIsSafe(requestedBy, required, callers, schedule[..|schedule| - 1]);
      var before := Interleave(System(Request(requestedBy, required, Pending, []), callers),
                               schedule[..|schedule| - 1]);
      AdvanceKeepsSafe(before, schedule[|schedule| - 1]);
    }
  }

  /** Four statements with nothing in between are one whole decision. */
  lemma SerialIsRecord(s: System, i: nat)
    requires i < |s.callers| && s.callers[i].phase.Start?
    ensures var c := s.callers[i];
      var s' := Advance(Advance(Advance(Advance(s, i), i), i), i);
      s'.request == (match Record(s.request, c.staff, c.choice) case Ok(r) => r case Err(_) => s.request)
  {
  }

  /** Interleaved, a closed request can change: an approval that was started before a rejection was
      written turns the rejected request into an approved one. */
  lemma RejectedCanBecomeApproved(r: Request, a: string, b: string)
    requires r.status == Pending && r.required <= 1 && r.decisions == []
    requires a != "" && a != r.requestedBy && b != r.requestedBy
    ensures var s := System(r, [Caller(a, Approve, Start), Caller(b, Reject, Start)]);
      var rejected := Advance(Advance(Advance(Advance(Advance(s, 0), 1), 1), 1), 1);
      && rejected.request.status == Rejected
      && Advance(Advance(Advance(rejected, 0), 0), 0).request.status == Approved
  {
    var s := System(r, [Caller(a, Approve, Start), Caller(b, Reject, Start)]);
    var rejected := Advance(Advance(Advance(Advance(Advance(s, 0), 1), 1), 1), 1);
    assert rejected.callers[0] == Caller(a, Approve, Reading);
    LateApproval(rejected, 0);
  }

  /** An approval that has passed its check completes whatever has happened to the request since. */
  lemma LateApproval(s: System, i: nat)
    requires i < |s.callers| && s.callers[i].phase.Reading? && s.callers[i].choice == Approve
    requires s.callers[i].staff != "" && s.request.required <= 1
    ensures Advance(Advance(Advance(s, i), i), i).request.status == Approved
  {
    var c, s' := s.callers[i], Advance(s, i);
    assert s'.request.decisions[|s.request.decisions|] == Decision(Some(c.staff), Approve);
    assert c.staff in Approvers(s'.request.decisions);
    SubsetCount({c.staff}, Approvers(s'.request.decisions));
  }

  /** The call would still add a decision or write another status. */
  predicate Unfinished(r: Request, c: Caller)
  {
    || (c.phase.Reading? && !c.choice.Other?)
    || (c.phase.Inserted? && Outcome(r, c.choice) !in {Pending, r.status})
    || (c.phase.Counted? && c.phase.status !in {Pending, r.status})
  }

  ghost predicate Settled(s: System)
  {
    forall c :: c in s.callers ==> !Unfinished(s.request, c)
  }

  lemma SettledStep(s: System, i: nat)
    requires s.request.status != Pending && Settled(s) && i < |s.callers|
    ensures Advance(s, i).request == s.request
    ensures Settled(Advance(s, i))
  {
    var c, s' := s.callers[i], Advance(s, i);
    assert c in s.callers;
    forall x | x in s'.callers && x != s'.callers[i]
      ensures x in s.callers
    {
    }
  }

  lemma {:induction false} SettledStays(s: System, schedule: seq<nat>)
    requires s.request.status != Pending && Settled(s)
    requires Schedulable(s, schedule)
    ensures Interleave(s, schedule).request == s.request
    ensures Settled(Interleave(s, schedule))
    decreases |schedule|
  {
    if schedule != [] {
      SettledStays(s, schedule[..|schedule| - 1]);
      SettledStep(Interleave(s, schedule[..|schedule| - 1]), schedule[|schedule| - 1]);
    }
  }

  /** A closed request never changes again exactly when no call under way has passed its check with
      something left to write. */
  lemma ClosedForGoodIff(s: System)
    requires s.request.status != Pending
    ensures Settled(s) <==> forall schedule | Schedulable(s, schedule) :: Interleave(s, schedule).request == s.request
  {
    if Settled(s) {
      forall schedule | Schedulable(s, schedule)
        ensures Interleave(s, schedule).request == s.request
      {
        SettledStays(s, schedule);
      }
    } else if forall schedule | Schedulable(s, schedule) :: Interleave(s, schedule).request == s.request {
      UnsettledMoves(s);
    }
  }

  lemma UnsettledMoves(s: System)
    requires s.request.status != Pending && !Settled(s)
    ensures exists schedule :: Schedulable(s, schedule) && Interleave(s, schedule).request != s.request
  {
    var c :| c in s.callers && Unfinished(s.request, c);
    var i :| 0 <= i < |s.callers| && s.callers[i] == c;
    UnfinishedMoves(s, i);
    Unroll(s, [], i);
    assert [] + [i] == [i];
    Unroll(s, [i], i);
    assert Schedulable(s, [i]) && Schedulable(s, [i] + [i]);
  }

  lemma UnfinishedMoves(s: System, i: nat)
    requires i < |s.callers| && Unfinished(s.request, s.callers[i])
    ensures Advance(s, i).request != s.request || Advance(Advance(s, i), i).request != s.request
  {
    var c, next := s.callers[i], Advance(s, i);
    match c.phase {
      case Reading =>
        assert next.request == Insert(s.request, c.staff, c.choice);
        assert |next.request.decisions| == |s.request.decisions| + 1;
      case Inserted =>
        var status := Outcome(s.request, c.choice);
        assert next.request == s.request && next.callers[i].phase == Counted(status);
        assert Advance(next, i).request == Update(s.request, status);
      case Counted(status) =>
        assert next.request == Update(s.request, status);
      case _ =>
    }
  }

  lemma Unroll(s: System, schedule: seq<nat>, i: nat)
    requires Schedulable(s, schedule) && i < |s.callers|
    ensures Interleave(s, schedule + [i]) == Advance(Interleave(s, schedule), i)
  {
    assert (schedule + [i])[..|schedule|] == schedule;
  }

  /** A negative number of required approvals is stored as given, and then the first approval closes
      the request even from a decider who counts for nobody. */
  lemma NoQuorumNeedsNobody(requestedBy: string, required: int)
    requires required < 0
    ensures var r := Record(Request(requestedBy, required, Pending, []), "", Approve);
      r.Ok? && r.value.status == Approved && Approvers(r.value.decisions) == {}
  {
  }

  /** The quorum law holds of every run of a new request exactly when it needs at least one approval. */
  lemma QuorumHoldsIff(requestedBy: string, required: int)
    ensures required >= 1 <==> forall steps :: Consistent(After(Request(requestedBy, required, Pending, []), steps))
  {
    var r := Request(requestedBy, required, Pending, []);
    if required >= 1 {
      forall steps
        ensures Consistent(After(r, steps))
      {
        QuorumOverAllRuns(requestedBy, required, steps);
      }
    } else {
      var none: seq<Step> := [];
      assert !Consistent(After(r, none));
    }
  }
}
