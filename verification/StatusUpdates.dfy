/**
  updateUnstructuredStatusIfChanged: a status block is rewritten only when it says
  something new, and each condition remembers when it last changed.
*/
module StatusUpdates {
  import opened Wrappers

  /** A condition a reconciler wants. */
  datatype Desired = Desired(kind: string, status: string, reason: string, message: string)

  /** A condition as stored; `extra` holds keys this code never writes. */
  datatype Condition = Condition(kind: string, status: string, reason: string, message: string,
                                 time: string, extra: map<string, string>)

  /** A stored status block; `other` holds fields this code never writes. */
  datatype StatusBlock = StatusBlock(conditions: Option<seq<Condition>>, addresses: Option<seq<string>>,
                                     other: map<string, string>)

  predicate SameText(c: Condition, d: Desired) {
    c.status == d.status && c.reason == d.reason && c.message == d.message
  }

  /** The last stored condition of a type: later entries of the map overwrite earlier ones. */
  function LastOf(conditions: seq<Condition>, kind: string): Option<Condition> {
    if conditions == [] then None
    else if conditions[|conditions| - 1].kind == kind then Some(conditions[|conditions| - 1])
    else LastOf(conditions[..|conditions| - 1], kind)
  }

  function TransitionTime(existing: seq<Condition>, d: Desired, now: string): string {
    var prev := LastOf(existing, d.kind);
    if prev.Some? && SameText(prev.value, d) && prev.value.time != "" then prev.value.time else now
  }

  function Stamped(existing: seq<Condition>, d: Desired, now: string): Condition {
    Condition(d.kind, d.status, d.reason, d.message, TransitionTime(existing, d, now), map[])
  }

  function NextConditions(existing: seq<Condition>, desired: seq<Desired>, now: string): seq<Condition> {
    if desired == [] then []
    else NextConditions(existing, desired[..|desired| - 1], now) + [Stamped(existing, desired[|desired| - 1], now)]
  }

  function ExistingConditions(status: Option<StatusBlock>): seq<Condition> {
    if status.Some? && status.value.conditions.Some? then status.value.conditions.value else []
  }

  function NextStatus(status: Option<StatusBlock>, addresses: Option<seq<string>>, desired: seq<Desired>,
                      now: string): StatusBlock {
    StatusBlock(Some(NextConditions(ExistingConditions(status), desired, now)), addresses, map[])
  }

  /** An object with a status subresource; `writes` counts the calls that reached the API server. */
  class StatusObject {
    var status: Option<StatusBlock>
    var writes: nat

    constructor ()
      ensures status == None && writes == 0
    {
      status, writes := None, 0;
    }

    method UpdateIfChanged(addresses: Option<seq<string>>, desired: seq<Desired>, now: string)
      modifies this
      ensures status == Some(NextStatus(old(status), addresses, desired, now))
      ensures writes == old(writes) + (if status == old(status) then 0 else 1)
    {
      var existing := ExistingConditions(status);
      var byType: map<string, Condition> := map[];
      for i := 0 to |existing|
        invariant forall t :: t in byType <==> LastOf(existing[..i], t).Some?
        invariant forall t :: t in byType ==> LastOf(existing[..i], t) == Some(byType[t])
      {
        assert existing[..i + 1][..i] == existing[..i];
        byType := byType[existing[i].kind := existing[i]];
      }
      assert existing[..|existing|] == existing;

      var conditions: seq<Condition> := [];
      for i := 0 to |desired|
        invariant conditions == NextConditions(existing, desired[..i], now)
      {
        assert desired[..i + 1][..i] == desired[..i];
        var d, time := desired[i], now;
        if d.kind in byType {
          var prev := byType[d.kind];
          if prev.status == d.status && prev.reason == d.reason && prev.message == d.message && prev.time != "" {
            time := prev.time;
          }
        }
        conditions := conditions + [Condition(d.kind, d.status, d.reason, d.message, time, map[])];
      }
      assert desired[..|desired|] == desired;

      var next := StatusBlock(Some(conditions), addresses, map[]);
      if status != Some(next) {
        status := Some(next);
        writes := writes + 1;
      }
    }
  }

  // ---------------------------------------------------------------- what is stored

  /** No two desired conditions of one type disagree; so it is when the types are distinct. */
  predicate Consistent(desired: seq<Desired>) {
    forall i, j :: 0 <= i < |desired| && 0 <= j < |desired| && desired[i].kind == desired[j].kind ==>
      desired[i] == desired[j]
  }

  lemma {:induction false} NextConditionsAt(existing: seq<Condition>, desired: seq<Desired>, now: string)
    ensures |NextConditions(existing, desired, now)| == |desired|
    ensures forall i :: 0 <= i < |desired| ==>
              NextConditions(existing, desired, now)[i] == Stamped(existing, desired[i], now)
  {
    hide Stamped;
    if desired != [] {
      NextConditionsAt(existing, desired[..|desired| - 1], now);
    }
  }

  predicate IsLastOf(conditions: seq<Condition>, kind: string, i: int) {
    && 0 <= i < |conditions| && conditions[i].kind == kind
    && forall j :: i < j < |conditions| ==> conditions[j].kind != kind
  }

  lemma {:induction false} LastOfMeaning(conditions: seq<Condition>, kind: string)
    ensures match LastOf(conditions, kind)
            case None => forall i :: 0 <= i < |conditions| ==> conditions[i].kind != kind
            case Some(c) => c.kind == kind && (exists i :: IsLastOf(conditions, kind, i) && conditions[i] == c)
  {
    if conditions != [] {
      var n := |conditions| - 1;
      if conditions[n].kind == kind {
        assert IsLastOf(conditions, kind, n);
      } else {
        var front := conditions[..n];
        LastOfMeaning(front, kind);
        if LastOf(front, kind).Some? {
          var i :| IsLastOf(front, kind, i) && front[i] == LastOf(front, kind).value;
          assert IsLastOf(conditions, kind, i);
        }
      }
    }
  }

  /** Under consistent conditions, what was stored of a desired condition is what is found of its type. */
  lemma FoundAgain(existing: seq<Condition>, desired: seq<Desired>, now: string, d: Desired)
    requires Consistent(desired)
    ensures var stored := NextConditions(existing, desired, now);
            var found := LastOf(stored, d.kind);
            && (d in desired ==> found == Some(Stamped(existing, d, now)))
            && (d !in desired ==> found.None? || !SameText(found.value, d))
  {
    hide Stamped;
    var stored := NextConditions(existing, desired, now);
    NextConditionsAt(existing, desired, now);
    LastOfMeaning(stored, d.kind);
    assert forall i :: 0 <= i < |stored| ==> stored[i] == Stamped(existing, desired[i], now);
    StampedFields(existing, desired, now);
    var found := LastOf(stored, d.kind);
    if d in desired {
      var k :| 0 <= k < |desired| && desired[k] == d;
      assert stored[k].kind == d.kind;
    }
    if found.Some? {
      var i :| IsLastOf(stored, d.kind, i) && stored[i] == found.value;
      assert desired[i].kind == d.kind && desired[i] in desired;
    }
  }

  lemma StampedFields(existing: seq<Condition>, desired: seq<Desired>, now: string)
    ensures forall i :: 0 <= i < |desired| ==>
              var c := Stamped(existing, desired[i], now);
              c.kind == desired[i].kind && c.status == desired[i].status
              && c.reason == desired[i].reason && c.message == desired[i].message
  {
  }

  // ---------------------------------------------------------------- repeating a call

  lemma NextFrom(existing: seq<Condition>, again: seq<Condition>, desired: seq<Desired>, t1: string, t2: string)
    requires forall d :: d in desired ==> Stamped(again, d, t2) == Stamped(existing, d, t1)
    ensures NextConditions(again, desired, t2) == NextConditions(existing, desired, t1)
  {
    hide Stamped;
    NextConditionsAt(existing, desired, t1);
    NextConditionsAt(again, desired, t2);
    var a, b := NextConditions(again, desired, t2), NextConditions(existing, desired, t1);
    forall i | 0 <= i < |desired| ensures a[i] == b[i] {
      assert desired[i] in desired;
    }
  }

  lemma StampKept(existing: seq<Condition>, again: seq<Condition>, d: Desired, t1: string, t2: string)
    requires t1 != "" && LastOf(again, d.kind) == Some(Stamped(existing, d, t1))
    ensures Stamped(again, d, t2) == Stamped(existing, d, t1)
  {
    hide LastOf;
  }

  /** A call that repeats the previous addresses and conditions changes nothing, whatever the clock says. */
  lemma RepeatIsSilent(status: Option<StatusBlock>, addresses: Option<seq<string>>, desired: seq<Desired>, t1: string,
                       t2: string)
    requires Consistent(desired) && t1 != ""
    ensures var first := NextStatus(status, addresses, desired, t1);
            NextStatus(Some(first), addresses, desired, t2) == first
  {
    hide Consistent, Stamped, NextConditions, LastOf;
    var existing := ExistingConditions(status);
    var stored := NextConditions(existing, desired, t1);
    forall d | d in desired ensures Stamped(stored, d, t2) == Stamped(existing, d, t1) {
      FoundAgain(existing, desired, t1, d);
      StampKept(existing, stored, d, t1, t2);
    }
    NextFrom(existing, stored, desired, t1, t2);
  }

  lemma FreshTimes(desired: seq<Desired>, now: string)
    ensures forall i :: 0 <= i < |desired| ==> |NextConditions([], desired, now)| == |desired|
                                               && NextConditions([], desired, now)[i].time == now
  {
    NextConditionsAt([], desired, now);
  }

  /** On a new object, repetition is silent for every later clock exactly when the conditions are consistent. */
  lemma RepeatIsSilentExactlyWhenConsistent(addresses: Option<seq<string>>, desired: seq<Desired>, t1: string,
                                            t2: string)
    requires t1 != "" && t2 != t1
    ensures var first := NextStatus(None, addresses, desired, t1);
            NextStatus(Some(first), addresses, desired, t2) == first <==> Consistent(desired)
  {
    hide NextConditions, LastOf;
    if Consistent(desired) {
      RepeatIsSilent(None, addresses, desired, t1, t2);
    } else {
      var i, j :| 0 <= i < |desired| && 0 <= j < |desired| && desired[i].kind == desired[j].kind
                  && desired[i] != desired[j];
      DisagreementIsRestamped(desired, i, j, t1, t2);
    }
  }

  lemma DisagreementIsRestamped(desired: seq<Desired>, i: nat, j: nat, t1: string, t2: string)
    requires i < |desired| && j < |desired| && desired[i].kind == desired[j].kind && desired[i] != desired[j]
    requires t2 != t1
    ensures NextConditions(NextConditions([], desired, t1), desired, t2) != NextConditions([], desired, t1)
  {
    hide NextConditions, LastOf;
    var stored := NextConditions([], desired, t1);
    NextConditionsAt(stored, desired, t2);
    FreshTimes(desired, t1);
    var k := Overwritten(desired, stored, i, j, t1);
    assert NextConditions(stored, desired, t2)[k].time == t2;
  }

  /** Of two disagreeing conditions of one type, at least one is not the one found later. */
  lemma Overwritten(desired: seq<Desired>, stored: seq<Condition>, i: nat, j: nat, now: string) returns (k: nat)
    requires i < |desired| && j < |desired| && desired[i].kind == desired[j].kind && desired[i] != desired[j]
    requires stored == NextConditions([], desired, now)
    ensures k == i || k == j
    ensures LastOf(stored, desired[k].kind).None? || !SameText(LastOf(stored, desired[k].kind).value, desired[k])
  {
    hide NextConditions, LastOf;
    k := if LastOf(stored, desired[i].kind).Some? && SameText(LastOf(stored, desired[i].kind).value, desired[i])
         then j else i;
  }

  /** A condition keeps the time of the last stored one of its type if that says the same and has a time. */
  lemma TransitionMeaning(existing: seq<Condition>, d: Desired, now: string, i: nat)
    ensures (forall j :: 0 <= j < |existing| ==> existing[j].kind != d.kind) ==>
              TransitionTime(existing, d, now) == now
    ensures IsLastOf(existing, d.kind, i) ==>
              TransitionTime(existing, d, now)
              == if existing[i].status == d.status && existing[i].reason == d.reason
                    && existing[i].message == d.message && existing[i].time != "" then existing[i].time else now
  {
    hide LastOf;
    LastOfMeaning(existing, d.kind);
  }

  // ---------------------------------------------------------------- histories

  datatype Call = Call(addresses: Option<seq<string>>, desired: seq<Desired>, now: string)

  /** The status after a series of calls on an object that had the given one. */
  function After(start: Option<StatusBlock>, calls: seq<Call>): Option<StatusBlock> {
    if calls == [] then start
    else
      var c := calls[|calls| - 1];
      Some(NextStatus(After(start, calls[..|calls| - 1]), c.addresses, c.desired, c.now))
  }

  ghost predicate WellFormed(calls: seq<Call>) {
    forall k :: 0 <= k < |calls| ==> Consistent(calls[k].desired) && calls[k].now != ""
  }

  /** The first call of the unbroken series up to `k` that asked for exactly `d`. */
  function StableSince(calls: seq<Call>, k: nat, d: Desired): (m: nat)
    requires k < |calls| && d in calls[k].desired
    ensures m <= k && forall j :: m <= j <= k ==> d in calls[j].desired
    ensures m == 0 || d !in calls[m - 1].desired
  {
    if k > 0 && d in calls[k - 1].desired then StableSince(calls, k - 1, d) else k
  }

  lemma {:induction false} StableSincePrefix(calls: seq<Call>, n: nat, k: nat, d: Desired)
    requires k < n <= |calls| && d in calls[k].desired
    ensures StableSince(calls[..n], k, d) == StableSince(calls, k, d)
  {
    if k > 0 && d in calls[k - 1].desired { StableSincePrefix(calls, n, k - 1, d); }
  }

  /** The clock of the call since which `d` has been asked for; if that is the first call and the object had such a
      condition with a time already, that time. */
  function LastChange(start: Option<StatusBlock>, calls: seq<Call>, k: nat, d: Desired): string
    requires k < |calls| && d in calls[k].desired
  {
    var m := StableSince(calls, k, d);
    if m == 0 then TransitionTime(ExistingConditions(start), d, calls[0].now) else calls[m].now
  }

  /** Every condition carries the clock of the call since which its status, reason and message have stood. */
  lemma {:induction false} TimesAreLastChanges(start: Option<StatusBlock>, calls: seq<Call>, d: Desired)
    requires WellFormed(calls) && calls != [] && d in calls[|calls| - 1].desired
    ensures var n := |calls| - 1;
            Stamped(ExistingConditions(After(start, calls[..n])), d, calls[n].now).time
            == LastChange(start, calls, n, d)
  {
    hide Consistent, NextConditions, TransitionTime;
    var n := |calls| - 1;
    var front := calls[..n];
    if n > 0 {
      var last := front[n - 1];
      var before := ExistingConditions(After(start, front[..n - 1]));
      assert ExistingConditions(After(start, front)) == NextConditions(before, last.desired, last.now);
      StampAfter(before, last.desired, last.now, d, calls[n].now);
      if d in last.desired {
        TimesAreLastChanges(start, front, d);
        StableSincePrefix(calls, n, n - 1, d);
      }
    }
  }

  /** One more call: the time stays if the condition was asked for just before, and is the clock otherwise. */
  lemma StampAfter(before: seq<Condition>, desired: seq<Desired>, earlier: string, d: Desired, now: string)
    requires Consistent(desired) && earlier != ""
    ensures Stamped(NextConditions(before, desired, earlier), d, now).time
            == if d in desired then Stamped(before, d, earlier).time else now
  {
    hide Consistent, NextConditions, LastOf;
    FoundAgain(before, desired, earlier, d);
  }

  /** The stored conditions after a history, one by one. */
  lemma StoredConditions(start: Option<StatusBlock>, calls: seq<Call>, i: nat)
    requires WellFormed(calls) && calls != [] && i < |calls[|calls| - 1].desired|
    ensures var n := |calls| - 1;
            var d := calls[n].desired[i];
            var conditions := ExistingConditions(After(start, calls));
            && After(start, calls).Some? && After(start, calls).value.addresses == calls[n].addresses
            && |conditions| == |calls[n].desired|
            && conditions[i] == Condition(d.kind, d.status, d.reason, d.message, LastChange(start, calls, n, d), map[])
  {
    hide Consistent, NextConditions, LastOf, TransitionTime, LastChange;
    var n := |calls| - 1;
    var d := calls[n].desired[i];
    NextConditionsAt(ExistingConditions(After(start, calls[..n])), calls[n].desired, calls[n].now);
    TimesAreLastChanges(start, calls, d);
  }

  /** After the first call, a call writes exactly when its addresses or conditions differ from the previous ones. */
  lemma WritesExactlyOnChange(start: Option<StatusBlock>, calls: seq<Call>)
    requires WellFormed(calls) && |calls| >= 2
    ensures var n := |calls| - 1;
            After(start, calls) == After(start, calls[..n]) <==>
              calls[n].addresses == calls[n - 1].addresses && calls[n].desired == calls[n - 1].desired
  {
    hide Consistent, NextConditions, LastOf, Stamped;
    var n := |calls| - 1;
    var front := calls[..n];
    var last, before := calls[n - 1], After(start, front[..n - 1]);
    assert front[n - 1] == last;
    if calls[n].addresses == last.addresses && calls[n].desired == last.desired {
      RepeatIsSilent(before, last.addresses, last.desired, last.now, calls[n].now);
    } else if After(start, calls) == After(start, front) {
      SameConditionsSameDesired(ExistingConditions(After(start, front)), ExistingConditions(before),
                                calls[n].desired, last.desired, calls[n].now, last.now);
    }
  }

  lemma SameConditionsSameDesired(a: seq<Condition>, b: seq<Condition>, x: seq<Desired>, y: seq<Desired>, s: string,
                                  t: string)
    requires NextConditions(a, x, s) == NextConditions(b, y, t)
    ensures x == y
  {
    hide TransitionTime;
    NextConditionsAt(a, x, s);
    NextConditionsAt(b, y, t);
    forall i | 0 <= i < |x| ensures x[i] == y[i] {
      assert NextConditions(a, x, s)[i] == Stamped(b, y[i], t);
    }
  }
}
