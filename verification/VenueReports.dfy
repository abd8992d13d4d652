/**
 The IOC response of an action and its user fills arrive on different channels. When does their order decide how the
 action ends?
 */
module VenueReports {
  import opened Outcomes
  import opened ActionJournal

  datatype Response = Response(target: ActionState, reported: Option<real>, detail: Option<string>)

  /** The row after the response; a refused one changes nothing. */
  function Answered(a: Action, r: Response, t: int): Action {
    Kept(a, WithOutcome(a, r.target, r.reported, r.detail, t))
  }

  function Applied(a: Action, f: real, t: int): Action { Kept(a, WithFill(a, f, t)) }

  /** Both end in the same state with the same cumulative fill. */
  predicate Alike(a: Action, b: Action) { a.state == b.state && a.cumulative == b.cumulative }

  /** A sent action whose fate is still open. */
  predicate Unresolved(a: Action) { RowOk(a) && Crossed(a.state) && !TerminalState(a.state) }

  /**
   The response and a partial fill of quantity `f` race. A response with a quantity loses if it would be accepted before
   the fill, moves the state and reports less than `f`. A response without one loses if it would end an action that had
   no fill yet.
   */
  predicate Races(a: Action, r: Response, f: real) {
    && a.cumulative < f < a.requested && Allowed(a.state, r.target)
    && match r.reported
       case Some(c) =>
         && a.cumulative <= c < f && r.target != a.state && !r.target.Filled?
         && (r.target.PartiallyFilled? ==> c > 0.0)
         && (r.target.Rejected? || r.target.Canceled? ==> c == 0.0)
       case None =>
         a.cumulative == 0.0 && (r.target.PartiallyFilled? || r.target.Rejected? || r.target.Canceled?)
  }

  lemma OrderMattersWithQuantity(a: Action, r: Response, f: real, t1: int, t2: int)
    requires Unresolved(a) && r.reported.Some?
    ensures Alike(Applied(Answered(a, r, t1), f, t2), Answered(Applied(a, f, t2), r, t1)) <==> !Races(a, r, f)
  {
  }

  lemma OrderMattersWithout(a: Action, r: Response, f: real, t1: int, t2: int)
    requires Unresolved(a) && r.reported.None?
    ensures Alike(Applied(Answered(a, r, t1), f, t2), Answered(Applied(a, f, t2), r, t1)) <==> !Races(a, r, f)
  {
  }

  /** For every venue outcome and every quantity: the two orders end alike exactly when the reports do not race. */
  lemma OrderMattersIff(a: Action, r: Response, f: real, t1: int, t2: int)
    requires Unresolved(a)
    ensures Alike(Applied(Answered(a, r, t1), f, t2), Answered(Applied(a, f, t2), r, t1)) <==> !Races(a, r, f)
  {
    if r.reported.Some? {
      OrderMattersWithQuantity(a, r, f, t1, t2);
    } else {
      OrderMattersWithout(a, r, f, t1, t2);
    }
  }

  // ---------- One response among any number of fill reports ----------

  lemma AnsweredAlike(a: Action, b: Action, r: Response, t: int)
    requires RowOk(a) && RowOk(b) && Alike(a, b) && a.requested == b.requested
    ensures Alike(Answered(a, r, t), Answered(b, r, t))
    ensures RowOk(a) && Crossed(a.state) && t > 0 ==> RowOk(Answered(a, r, t)) && Crossed(Answered(a, r, t).state)
  {
  }

  lemma AppliedAlike(a: Action, b: Action, f: real, t: int)
    requires RowOk(a) && RowOk(b) && Alike(a, b) && a.requested == b.requested
    ensures Alike(Applied(a, f, t), Applied(b, f, t))
  {
  }

  lemma AppliedStaysOk(a: Action, f: real, t: int)
    requires RowOk(a) && Crossed(a.state)
    ensures RowOk(Applied(a, f, t)) && Crossed(Applied(a, f, t).state) && Applied(a, f, t).requested == a.requested
  {
  }

  /** A smaller fitting report before a larger one leaves no trace. */
  lemma LargerReportWins(a: Action, f: real, g: real, t: int)
    requires RowOk(a) && Crossed(a.state) && a.cumulative <= g <= a.requested
    requires f <= g || f > a.requested
    ensures Alike(Applied(Applied(a, f, t), g, t), Applied(a, g, t))
  {
  }

  /** Any number of reports comes to the largest one that fits. */
  lemma {:induction false} ReportsComeToLargest(a: Action, fs: seq<real>, t: int)
    requires RowOk(a) && Crossed(a.state)
    ensures Alike(FillAll(a, fs, t), Applied(a, LargestFit(a, fs), t))
    ensures RowOk(FillAll(a, fs, t)) && Crossed(FillAll(a, fs, t).state) && FillAll(a, fs, t).requested == a.requested
    ensures a.cumulative <= LargestFit(a, fs) <= a.requested
    decreases fs
  {
    if fs != [] {
      var b := Applied(a, fs[0], t);
      AppliedStaysOk(a, fs[0], t);
      ReportsComeToLargest(b, fs[1..], t);
      LargestFitBounds(a, b, fs[1..]);
      LargerReportWins(a, fs[0], LargestFit(a, fs), t);
    }
  }

  /** The response arrives after the first `p` fill reports. */
  function Interleaved(a: Action, r: Response, fs: seq<real>, p: nat, t1: int, t2: int): Action
    requires p <= |fs|
  {
    FillAll(Answered(FillAll(a, fs[..p], t2), r, t1), fs[p..], t2)
  }

  lemma {:induction false} LargestSplits(a: Action, b: Action, fs: seq<real>, p: nat)
    requires p <= |fs| && b.requested == a.requested && b.cumulative >= LargestFit(a, fs[..p])
    ensures a.cumulative <= LargestFit(a, fs[..p]) <= LargestFit(a, fs)
    ensures LargestFit(b, fs[p..]) == if LargestFit(a, fs) >= b.cumulative then LargestFit(a, fs) else b.cumulative
    decreases p
  {
    if p == 0 {
      assert fs[..0] == [] && fs[0..] == fs;
      LargestFitBounds(a, b, fs);
    } else {
      assert fs[..p][1..] == fs[1..][..p - 1] && fs[1..][p - 1..] == fs[p..];
      LargestSplits(a, b, fs[1..], p - 1);
    }
  }

  /** In the middle of the reports the response meets the largest report before it, and then the largest of all. */
  lemma InterleavedComesTo(a: Action, r: Response, fs: seq<real>, p: nat, t1: int, t2: int)
    requires Unresolved(a) && p <= |fs| && t1 > 0
    ensures var seen, all := LargestFit(a, fs[..p]), LargestFit(a, fs);
            && a.cumulative <= seen <= all <= a.requested
            && Alike(Interleaved(a, r, fs, p, t1, t2), Applied(Answered(Applied(a, seen, t2), r, t1), all, t2))
  {
    var seen, all := LargestFit(a, fs[..p]), LargestFit(a, fs);
    ReportsComeToLargest(a, fs, t2);
    ReportsComeToLargest(a, fs[..p], t2);
    AppliedStaysOk(a, seen, t2);
    var before, single := FillAll(a, fs[..p], t2), Applied(a, seen, t2);
    LargestSplits(a, before, fs, p);
    AnsweredAlike(before, single, r, t1);
    AnsweredAlike(single, before, r, t1);
    var answered := Answered(before, r, t1);
    LargestSplits(a, answered, fs, p);
    ReportsComeToLargest(answered, fs[p..], t2);
    AppliedAlike(answered, Answered(single, r, t1), all, t2);
    LateReports(before, answered, r, t1, all, LargestFit(answered, fs[p..]), t2);
  }

  /** A report below what the response already stated changes nothing. */
  lemma LateReports(before: Action, answered: Action, r: Response, t1: int, all: real, largest: real, t2: int)
    requires RowOk(before) && Crossed(before.state) && answered == Answered(before, r, t1)
    requires largest == if all >= answered.cumulative then all else answered.cumulative
    ensures Alike(Applied(answered, largest, t2), Applied(answered, all, t2))
  {
  }

  lemma MiddleWithQuantity(a: Action, r: Response, seen: real, all: real, t1: int, t2: int)
    requires Unresolved(a) && a.cumulative <= seen <= all <= a.requested && !Races(a, r, all) && r.reported.Some?
    ensures Alike(Applied(Answered(Applied(a, seen, t2), r, t1), all, t2), Applied(Answered(a, r, t1), all, t2))
  {
  }

  lemma MiddleWithout(a: Action, r: Response, seen: real, all: real, t1: int, t2: int)
    requires Unresolved(a) && a.cumulative <= seen <= all <= a.requested && !Races(a, r, all) && r.reported.None?
    ensures Alike(Applied(Answered(Applied(a, seen, t2), r, t1), all, t2), Applied(Answered(a, r, t1), all, t2))
  {
  }

  lemma MiddleIsAlike(a: Action, r: Response, seen: real, all: real, t1: int, t2: int)
    requires Unresolved(a) && a.cumulative <= seen <= all <= a.requested && !Races(a, r, all)
    ensures Alike(Applied(Answered(Applied(a, seen, t2), r, t1), all, t2), Applied(Answered(a, r, t1), all, t2))
  {
    if r.reported.Some? {
      MiddleWithQuantity(a, r, seen, all, t1, t2);
    } else {
      MiddleWithout(a, r, seen, all, t1, t2);
    }
  }

  /**
   One response among any fill reports, with repeats and stale ones: where it arrives makes no difference exactly when
   it does not race with the largest report that fits the order.
   */
  lemma ArrivalMattersIff(a: Action, r: Response, fs: seq<real>, t1: int, t2: int)
    requires Unresolved(a) && t1 > 0
    ensures (forall p: nat | p <= |fs| :: Alike(Interleaved(a, r, fs, p, t1, t2), Interleaved(a, r, fs, 0, t1, t2)))
            <==> !Races(a, r, LargestFit(a, fs))
  {
    var all := LargestFit(a, fs);
    InterleavedComesTo(a, r, fs, 0, t1, t2);
    assert fs[..0] == [] && fs[..|fs|] == fs;
    if !Races(a, r, all) {
      forall p: nat | p <= |fs| ensures Alike(Interleaved(a, r, fs, p, t1, t2), Interleaved(a, r, fs, 0, t1, t2)) {
        InterleavedComesTo(a, r, fs, p, t1, t2);
        MiddleIsAlike(a, r, LargestFit(a, fs[..p]), all, t1, t2);
      }
    } else {
      InterleavedComesTo(a, r, fs, |fs|, t1, t2);
      OrderMattersIff(a, r, all, t1, t2);
      LastIsAlike(a, r, all, t1, t2);
    }
  }

  lemma LastIsAlike(a: Action, r: Response, all: real, t1: int, t2: int)
    requires Unresolved(a) && a.cumulative <= all <= a.requested
    ensures Alike(Applied(Answered(Applied(a, all, t2), r, t1), all, t2), Answered(Applied(a, all, t2), r, t1))
    ensures Alike(Applied(a, a.cumulative, t2), a)
  {
  }
}
