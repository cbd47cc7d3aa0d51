/** The Terminal and Recoverable conditions (`updateConditions`, `onError`, `onSuccess` and the
    hooks that set Terminal), first as functions on what a condition list shows, then in place. */
module Conditions {
  import opened Nilable
  import opened AckTypes
  import opened Service
  import opened FileSystems

  /** The two errors the code compares by identity besides API errors, and the one `onError` substitutes. */
  datatype Returned = Passed(error: Option<Error>) | ResourceIsTerminal

  /** Who the manager acts for; the defaults of the status metadata. */
  datatype ManagerIdentity = ManagerIdentity(region: string, partition: string, accountID: string)

  // ---------------------------------------------------------------- specification

  function TerminalAWSError(err: Option<Error>): bool {
    err.Some? && err.value.apiCode == Some(VALIDATION)
  }

  predicate IsTerminal(err: Option<Error>) {
    TerminalAWSError(err) || (err.Some? && (err.value.isSecretError || err.value.hasTerminalError))
  }

  function TerminalMessage(e: Error): string {
    if e.isSecretError || e.hasTerminalError then e.text else e.apiText
  }

  function RecoverableMessage(e: Error): string {
    if e.apiCode.Some? then e.apiText else e.text
  }

  predicate IsLast(cs: seq<ConditionValue>, t: ConditionType, i: int) {
    0 <= i < |cs| && cs[i].ctype == t && forall j :: i < j < |cs| ==> cs[j].ctype != t
  }

  predicate HasType(cs: seq<ConditionValue>, t: ConditionType) {
    exists i :: 0 <= i < |cs| && cs[i].ctype == t
  }

  /** The index of the last condition of type `t`, or -1. */
  function LastOf(cs: seq<ConditionValue>, t: ConditionType): (i: int)
    ensures i == -1 || IsLast(cs, t, i)
    ensures i == -1 <==> !HasType(cs, t)
  {
    if cs == [] then -1
    else if cs[|cs| - 1].ctype == t then |cs| - 1
    else LastOf(cs[..|cs| - 1], t)
  }

  function SetLast(cs: seq<ConditionValue>, t: ConditionType, status: ConditionStatus,
          message: Option<string>): seq<ConditionValue> {
    var i := LastOf(cs, t);
    if i == -1 then cs else cs[i := cs[i].(status := status, message := message)]
  }

  function UpsertLast(cs: seq<ConditionValue>, t: ConditionType, status: ConditionStatus,
          message: Option<string>): seq<ConditionValue> {
    if LastOf(cs, t) == -1 then cs + [ConditionValue(t, status, message, None)] else SetLast(cs, t, status, message)
  }

  /** The list after `updateConditions`. */
  function Updated(cs: seq<ConditionValue>, err: Option<Error>): seq<ConditionValue> {
    if IsTerminal(err) then UpsertLast(cs, Terminal, True, Some(TerminalMessage(err.value))) else
    var cleared := SetLast(cs, Terminal, False, None);
    if err.Some? then UpsertLast(cleared, Recoverable, True, Some(RecoverableMessage(err.value)))
    else SetLast(cleared, Recoverable, False, None)
  }

  predicate ReportsUpdate(cs: seq<ConditionValue>, err: Option<Error>) {
    err.Some? || HasType(cs, Terminal) || HasType(cs, Recoverable) || HasType(cs, ResourceSynced)
  }

  /** The index of the first condition of type `t`, or -1. */
  function FirstOf(cs: seq<ConditionValue>, t: ConditionType): (i: int)
    ensures i == -1 || (0 <= i < |cs| && cs[i].ctype == t && forall j :: 0 <= j < i ==> cs[j].ctype != t)
    ensures i == -1 <==> !HasType(cs, t)
  {
    if cs == [] then -1 else
    var i := FirstOf(cs[..|cs| - 1], t);
    if i != -1 then i else if cs[|cs| - 1].ctype == t then |cs| - 1 else -1
  }

  /** The runtime's `SetTerminal`: update the first condition of the type, or append one. */
  function WithTerminal(cs: seq<ConditionValue>, status: ConditionStatus, message: Option<string>,
          reason: Option<string>): seq<ConditionValue> {
    var i := FirstOf(cs, Terminal);
    var v := ConditionValue(Terminal, status, message, reason);
    if i == -1 then cs + [v] else cs[i := v]
  }

  predicate AtMostOne(cs: seq<ConditionValue>, t: ConditionType) {
    forall i, j :: 0 <= i < j < |cs| ==> !(cs[i].ctype == t && cs[j].ctype == t)
  }

  /** Some True condition of type `t` is followed by another condition of that type. */
  predicate HasBuried(cs: seq<ConditionValue>, t: ConditionType) {
    exists i, j :: 0 <= i < j < |cs| && cs[i].ctype == t && cs[i].status == True && cs[j].ctype == t
  }

  /** The error that is returned for `err` when the conditions showed `cs`. */
  function Reported(err: Option<Error>, cs: seq<ConditionValue>): Returned {
    if IsTerminal(err) || HasBuried(cs, Terminal) then ResourceIsTerminal else Passed(err)
  }

  // ---------------------------------------------------------------- the code

  /** Known metadata stays; what is missing of region, partition and account is the manager's. */
  lemma DefaultsFillGaps(rm: ManagerIdentity, metadata: Option<ResourceMetadata>)
    ensures var m := DefaultedMetadata(rm, metadata);
            && m.region.Some? && m.partition.Some? && m.ownerAccountID.Some?
            && (metadata.None? ==> m == ResourceMetadata(None, Some(rm.region), Some(rm.partition), Some(rm.accountID)))
            && (metadata.Some? ==>
                  && m.arn == metadata.value.arn
                  && (m.region == metadata.value.region || (metadata.value.region.None? && m.region == Some(rm.region)))
                  && (m.partition == metadata.value.partition
                      || (metadata.value.partition.None? && m.partition == Some(rm.partition)))
                  && (m.ownerAccountID == metadata.value.ownerAccountID
                      || (metadata.value.ownerAccountID.None? && m.ownerAccountID == Some(rm.accountID))))
  {
  }

  method SetStatusDefaults(rm: ManagerIdentity, ko: FileSystem)
    modifies ko`status
    ensures ko.status == Defaulted(rm, old(ko.status))
  {
    if ko.status.metadata.None? {
      ko.status := ko.status.(metadata := Some(NO_METADATA));
    }
    if ko.status.metadata.value.region.None? {
      ko.status := ko.status.(metadata := Some(ko.status.metadata.value.(region := Some(rm.region))));
    }
    if ko.status.metadata.value.partition.None? {
      ko.status := ko.status.(metadata := Some(ko.status.metadata.value.(partition := Some(rm.partition))));
    }
    if ko.status.metadata.value.ownerAccountID.None? {
      ko.status := ko.status.(metadata := Some(ko.status.metadata.value.(ownerAccountID := Some(rm.accountID))));
    }
  }

  function OrElse(a: Option<string>, b: string): Option<string> {
    if a.Some? then a else Some(b)
  }

  function DefaultedMetadata(rm: ManagerIdentity, metadata: Option<ResourceMetadata>): ResourceMetadata {
    var m := if metadata.Some? then metadata.value else NO_METADATA;
    m.(region := OrElse(m.region, rm.region), partition := OrElse(m.partition, rm.partition),
       ownerAccountID := OrElse(m.ownerAccountID, rm.accountID))
  }

  function Defaulted(rm: ManagerIdentity, s: FileSystemStatus): FileSystemStatus {
    s.(metadata := Some(DefaultedMetadata(rm, s.metadata)))
  }

  /** The pointer to the last condition of type `t`, nil if there is none. */
  ghost predicate PointsToLast(p: Condition?, cs: seq<Condition>, t: ConditionType)
    reads cs
  {
    var i := LastOf(Values(cs), t);
    p == if i == -1 then null else cs[i]
  }

  lemma LastOneFurther(p: Condition?, cs: seq<Condition>, t: ConditionType, i: nat)
    requires i < |cs| && PointsToLast(p, cs[..i], t)
    ensures PointsToLast(if cs[i].ctype == t then cs[i] else p, cs[..i + 1], t)
  {
    assert Values(cs[..i + 1])[..i] == Values(cs[..i]);
  }

  method FindLast(cs: seq<Condition>) returns (terminal: Condition?, recoverable: Condition?, sync: Condition?)
    ensures PointsToLast(terminal, cs, Terminal)
    ensures PointsToLast(recoverable, cs, Recoverable)
    ensures PointsToLast(sync, cs, ResourceSynced)
  {
    terminal, recoverable, sync := null, null, null;
    for i := 0 to |cs|
      invariant PointsToLast(terminal, cs[..i], Terminal)
      invariant PointsToLast(recoverable, cs[..i], Recoverable)
      invariant PointsToLast(sync, cs[..i], ResourceSynced)
    {
      LastOneFurther(terminal, cs, Terminal, i);
      LastOneFurther(recoverable, cs, Recoverable, i);
      LastOneFurther(sync, cs, ResourceSynced, i);
      if cs[i].ctype == Terminal {
        terminal := cs[i];
      }
      if cs[i].ctype == Recoverable {
        recoverable := cs[i];
      }
      if cs[i].ctype == ResourceSynced {
        sync := cs[i];
      }
    }
    assert cs[..|cs|] == cs;
  }

  /** Writes through a pointer into the list. */
  method Write(p: Condition, ghost cs: seq<Condition>, ghost i: int, status: ConditionStatus, message: Option<string>)
    requires AllDistinct(cs) && 0 <= i < |cs| && cs[i] == p
    modifies p
    ensures Values(cs) == old(Values(cs))[i := old(Values(cs))[i].(status := status, message := message)]
  {
    p.status := status;
    p.message := message;
  }

  /** Reuses the condition `p` points to, or appends a new one of type `t`, and sets it True. */
  method MarkTrue(ko: FileSystem, p: Condition?, t: ConditionType, message: Option<string>) returns (q: Condition)
    requires AllDistinct(ko.conditions) && PointsToLast(p, ko.conditions, t)
    modifies ko`conditions, if p == null then {} else {p}
    ensures AllDistinct(ko.conditions) && forall c :: c in ko.conditions ==> c in old(ko.conditions) || fresh(c)
    ensures Values(ko.conditions) == UpsertLast(old(Values(ko.conditions)), t, True, message)
  {
    ghost var before := Values(ko.conditions);
    if p == null {
      q := new Condition(ConditionValue(t, Unknown, None, None));
      ko.conditions := ko.conditions + [q];
      assert Values(ko.conditions) == before + [q.Value()];
      Write(q, ko.conditions, |ko.conditions| - 1, True, message);
    } else {
      q := p;
      Write(q, ko.conditions, LastOf(before, t), True, message);
    }
  }

  /** Sets the condition `p` points to False, if there is one. */
  method MarkFalse(ghost cs: seq<Condition>, p: Condition?, ghost t: ConditionType)
    requires AllDistinct(cs) && PointsToLast(p, cs, t)
    modifies if p == null then {} else {p}
    ensures Values(cs) == SetLast(old(Values(cs)), t, False, None)
  {
    if p != null {
      Write(p, cs, LastOf(Values(cs), t), False, None);
    }
  }

  /** The branch for an error that is not terminal, or no error. */
  method Relieve(ko: FileSystem, terminal: Condition?, recoverable: Condition?, err: Option<Error>)
    returns (recoverable': Condition?)
    requires AllDistinct(ko.conditions)
    requires PointsToLast(terminal, ko.conditions, Terminal) && PointsToLast(recoverable, ko.conditions, Recoverable)
    requires !IsTerminal(err)
    modifies ko`conditions, if terminal == null then {} else {terminal},
            if recoverable == null then {} else {recoverable}
    ensures AllDistinct(ko.conditions) && forall c :: c in ko.conditions ==> c in old(ko.conditions) || fresh(c)
    ensures Values(ko.conditions) == Updated(old(Values(ko.conditions)), err)
    ensures recoverable' != null <==> recoverable != null || err.Some?
  {
    ghost var before := Values(ko.conditions);
    MarkFalse(ko.conditions, terminal, Terminal);
    SetLastKeepsLast(before, Terminal, False, None, Recoverable);
    recoverable' := recoverable;
    if err.Some? {
      recoverable' := MarkTrue(ko, recoverable, Recoverable, Some(RecoverableMessage(err.value)));
    } else if recoverable != null {
      MarkFalse(ko.conditions, recoverable, Recoverable);
    }
  }

  /** Everything written is new: the argument and its condition objects are left as they were. */
  method UpdateConditions(rm: ManagerIdentity, r: FileSystem, err: Option<Error>)
    returns (ko: FileSystem?, updated: bool)
    ensures updated <==> ReportsUpdate(Values(r.conditions), err)
    ensures updated <==>
              || err.Some?
              || exists i :: 0 <= i < |r.conditions|
                             && Values(r.conditions)[i].ctype in {Terminal, Recoverable, ResourceSynced}
    ensures updated <==> ko != null
    ensures ko != null ==>
              && fresh(ko) && AllDistinct(ko.conditions) && (forall c :: c in ko.conditions ==> fresh(c))
              && ko.namespace == r.namespace && ko.spec == r.spec && ko.status == Defaulted(rm, r.status)
              && Values(ko.conditions) == Updated(Values(r.conditions), err)
  {
    ghost var before := Values(r.conditions);
    ko := r.DeepCopy();
    SetStatusDefaults(rm, ko);
    assert Values(ko.conditions) == before;
    assert forall c :: c in ko.conditions ==> fresh(c);
    updated := Revise(ko, err);
    assert Values(ko.conditions) == Updated(before, err);
    if !updated {
      ko := null;
    }
  }

  /** The rest of `updateConditions`, on the copy. */
  method Revise(ko: FileSystem, err: Option<Error>) returns (updated: bool)
    requires AllDistinct(ko.conditions)
    modifies ko`conditions, ko.conditions
    ensures AllDistinct(ko.conditions) && forall c :: c in ko.conditions ==> c in old(ko.conditions) || fresh(c)
    ensures Values(ko.conditions) == Updated(old(Values(ko.conditions)), err)
    ensures updated <==> ReportsUpdate(old(Values(ko.conditions)), err)
  {
    ghost var before := Values(ko.conditions);
    var terminalCondition, recoverableCondition, syncCondition := FindLast(ko.conditions);
    assert terminalCondition != null <==> HasType(before, Terminal);
    assert recoverableCondition != null <==> HasType(before, Recoverable);
    assert syncCondition != null <==> HasType(before, ResourceSynced);
    assert terminalCondition != null ==> terminalCondition in ko.conditions;
    assert recoverableCondition != null ==> recoverableCondition in ko.conditions;

    if IsTerminal(err) {
      terminalCondition := MarkTrue(ko, terminalCondition, Terminal, Some(TerminalMessage(err.value)));
    } else {
      recoverableCondition := Relieve(ko, terminalCondition, recoverableCondition, err);
    }
    return terminalCondition != null || recoverableCondition != null || syncCondition != null;
  }

  method OnError(rm: ManagerIdentity, r: FileSystem?, err: Option<Error>) returns (res: FileSystem?, ret: Returned)
    ensures res == null <==> r == null
    ensures r == null ==> ret == Passed(err)
    ensures r != null ==> Values(res.conditions) == Updated(Values(r.conditions), err)
    ensures r != null && err.Some? ==> ret == Reported(err, Values(r.conditions))
    ensures r != null && err.Some? && AtMostOne(Values(r.conditions), Terminal) ==>
              var terminal := || err.value.apiCode == Some("ValidationException")
                              || err.value.isSecretError || err.value.hasTerminalError;
              ret == if terminal then ResourceIsTerminal else Passed(err)
    ensures r != null && err.None? ==>
              ret == if HasBuried(Values(r.conditions), Terminal) then ResourceIsTerminal else Passed(None)
    ensures r != null && ReportsUpdate(Values(r.conditions), err) ==>
              fresh(res) && res.spec == r.spec && res.status == Defaulted(rm, r.status)
    ensures r != null && !ReportsUpdate(Values(r.conditions), err) ==> res == r
  {
    if r == null {
      return null, Passed(err);
    }
    var r1, updated := UpdateConditions(rm, r, err);
    if !updated {
      NothingToUpdate(Values(r.conditions), err);
      return r, Passed(err);
    }
    TerminalAfterUpdate(Values(r.conditions), err);
    for i := 0 to |r1.conditions|
      invariant forall j :: 0 <= j < i ==>
                  !(Values(r1.conditions)[j].ctype == Terminal && Values(r1.conditions)[j].status == True)
    {
      assert Values(r1.conditions)[i] == r1.conditions[i].Value();
      if r1.conditions[i].ctype == Terminal && r1.conditions[i].status == True {
        return r1, ResourceIsTerminal;
      }
    }
    return r1, Passed(err);
  }

  method OnSuccess(rm: ManagerIdentity, r: FileSystem?) returns (res: FileSystem?)
    ensures res == null <==> r == null
    ensures r != null ==> Values(res.conditions) == Updated(Values(r.conditions), None)
    ensures r != null && ReportsUpdate(Values(r.conditions), None) ==>
              fresh(res) && res.spec == r.spec && res.status == Defaulted(rm, r.status)
    ensures r != null && !ReportsUpdate(Values(r.conditions), None) ==> res == r
  {
    if r == null {
      return null;
    }
    var r1, updated := UpdateConditions(rm, r, None);
    if !updated {
      NothingToUpdate(Values(r.conditions), None);
      return r;
    }
    return r1;
  }

  /** The tail that ReadOne, Create, Update and Delete share: `out` is what the SDK call produced. */
  method Conclude(rm: ManagerIdentity, given: FileSystem, out: FileSystem?, err: Option<Error>)
    returns (res: FileSystem?, ret: Returned)
    ensures err.Some? ==> res != null && fresh(res)
    ensures err.Some? ==>
              Values(res.conditions) == Updated(Values((if out != null then out else given).conditions), err)
    ensures err.Some? ==> ret == Reported(err, Values((if out != null then out else given).conditions))
    ensures err.Some? ==> res.spec == (if out != null then out else given).spec
    ensures err.None? ==> ret == Passed(None) && (res == null <==> out == null)
    ensures err.None? && out != null ==>
              Values(res.conditions) == Updated(Values(out.conditions), None) && res.spec == out.spec
    ensures err.None? && out != null && ReportsUpdate(Values(out.conditions), None) ==>
              fresh(res) && res.status == Defaulted(rm, out.status)
  {
    if err.Some? {
      if out != null {
        res, ret := OnError(rm, out, err);
      } else {
        res, ret := OnError(rm, given, err);
      }
      return;
    }
    res := OnSuccess(rm, out);
    return res, Passed(None);
  }

  /** Writes the first Terminal condition of the list in place, or appends a new one. */
  method SetTerminal(cs: seq<Condition>, status: ConditionStatus, message: Option<string>, reason: Option<string>)
    returns (cs': seq<Condition>)
    requires AllDistinct(cs)
    modifies cs
    ensures Values(cs') == WithTerminal(old(Values(cs)), status, message, reason)
    ensures AllDistinct(cs') && forall c :: c in cs' ==> c in cs || fresh(c)
  {
    for i := 0 to |cs|
      invariant forall j :: 0 <= j < i ==> Values(cs)[j].ctype != Terminal
      invariant Values(cs) == old(Values(cs))
      invariant forall c :: c in cs ==> unchanged(c)
    {
      assert Values(cs)[i] == cs[i].Value();
      if cs[i].ctype == Terminal {
        cs[i].status, cs[i].message, cs[i].reason := status, message, reason;
        assert FirstOf(old(Values(cs)), Terminal) == i;
        return cs;
      }
    }
    var c := new Condition(ConditionValue(Terminal, status, message, reason));
    return cs + [c];
  }

  // ---------------------------------------------------------------- one update

  lemma SetLastKeepsLast(cs: seq<ConditionValue>, t: ConditionType, status: ConditionStatus,
          message: Option<string>, u: ConditionType)
    ensures LastOf(SetLast(cs, t, status, message), u) == LastOf(cs, u)
  {
  }

  lemma NothingToUpdate(cs: seq<ConditionValue>, err: Option<Error>)
    requires !ReportsUpdate(cs, err)
    ensures Updated(cs, err) == cs
  {
  }

  /** Conditions of other types stay, in place and unchanged; at most one condition is added, and
      it is a True condition of the type the error calls for. */
  lemma UpdateKeepsOthers(cs: seq<ConditionValue>, err: Option<Error>)
    ensures var after := Updated(cs, err);
            && |cs| <= |after| <= |cs| + 1
            && (forall i :: 0 <= i < |cs| ==> after[i].ctype == cs[i].ctype && after[i].reason == cs[i].reason)
            && (forall i :: 0 <= i < |cs| && cs[i].ctype !in {Terminal, Recoverable} ==> after[i] == cs[i])
            && (|after| > |cs| ==> err.Some? && after[|cs|].status == True && after[|cs|].reason.None?
                                   && after[|cs|].ctype == if IsTerminal(err) then Terminal else Recoverable)
  {
  }

  lemma UpdateKeepsAtMostOne(cs: seq<ConditionValue>, err: Option<Error>, t: ConditionType)
    requires AtMostOne(cs, t)
    ensures AtMostOne(Updated(cs, err), t)
  {
  }

  lemma OtherTerminalsStay(cs: seq<ConditionValue>, err: Option<Error>)
    requires !IsTerminal(err)
    ensures var after, last := Updated(cs, err), LastOf(cs, Terminal);
            && |after| >= |cs|
            && (forall i :: |cs| <= i < |after| ==> after[i].ctype != Terminal)
            && (last != -1 ==> after[last].status == False)
            && (forall i :: 0 <= i < |cs| && i != last && cs[i].ctype == Terminal ==> after[i] == cs[i])
            && (forall i :: 0 <= i < |cs| ==> after[i].ctype == cs[i].ctype)
  {
    SetLastKeepsLast(cs, Terminal, False, None, Recoverable);
    UpdateKeepsOthers(cs, err);
  }

  /** When Terminal is True after an update: the error is a validation error, one of the two secret errors
      or wraps a terminal one; or a True condition was shadowed by a later one of the same type, which is
      the only one the update looks at. */
  lemma TerminalAfterUpdate(cs: seq<ConditionValue>, err: Option<Error>)
    ensures Has(Updated(cs, err), Terminal) <==>
              || (err.Some? && err.value.apiCode == Some("ValidationException"))
              || (err.Some? && (err.value.isSecretError || err.value.hasTerminalError))
              || exists i, j :: 0 <= i < j < |cs| && cs[i].ctype == cs[j].ctype == Terminal && cs[i].status == True
    ensures Has(Updated(cs, err), Terminal) <==> IsTerminal(err) || HasBuried(cs, Terminal)
  {
    var after := Updated(cs, err);
    var last := LastOf(cs, Terminal);
    if IsTerminal(err) {
      assert after[if last == -1 then |cs| else last].status == True;
    } else {
      OtherTerminalsStay(cs, err);
      if HasBuried(cs, Terminal) {
        var i, j :| 0 <= i < j < |cs| && cs[i].ctype == Terminal && cs[i].status == True && cs[j].ctype == Terminal;
        assert after[i] == cs[i];
      }
      if Has(after, Terminal) {
        var i :| 0 <= i < |after| && after[i].ctype == Terminal && after[i].status == True;
        assert i < last && cs[i] == after[i];
      }
    }
  }

  /** Given one condition per type, the outcome of an update: Terminal is True exactly for a validation
      error, a secret error or a wrapped terminal error, and then Recoverable is as before; for every other
      error Recoverable is True, and without an error neither is. The error returned goes with it. */
  lemma OutcomeOfUpdate(cs: seq<ConditionValue>, err: Option<Error>)
    requires AtMostOne(cs, Terminal) && AtMostOne(cs, Recoverable)
    ensures var terminal := err.Some? && (|| err.value.apiCode == Some("ValidationException")
                                          || err.value.isSecretError || err.value.hasTerminalError);
            && (Has(Updated(cs, err), Terminal) <==> terminal)
            && (Has(Updated(cs, err), Recoverable) <==> if terminal then Has(cs, Recoverable) else err.Some?)
            && (err.Some? ==> Reported(err, cs) == if terminal then ResourceIsTerminal else Passed(err))
  {
    TerminalAfterUpdate(cs, err);
    UpdateKeepsOthers(cs, err);
    SetLastKeepsLast(cs, Terminal, False, None, Recoverable);
    var after, last := Updated(cs, err), LastOf(cs, Recoverable);
    if IsTerminal(err) {
      assert forall i :: 0 <= i < |cs| && cs[i].ctype == Recoverable ==> after[i] == cs[i];
    } else if err.Some? {
      assert after[if last == -1 then |cs| else last].status == True;
    }
  }

  /** What the condition that an update sets shows: True, with the text of the API error, or with the error's
      own text if it is a secret error or wraps a terminal one, or is no API error. */
  lemma UpdateShowsTheError(cs: seq<ConditionValue>, e: Error) returns (i: nat)
    ensures var after := Updated(cs, Some(e));
            && i < |after| && after[i].status == True
            && (forall j :: i < j < |after| ==> after[j].ctype != after[i].ctype)
            && (e.isSecretError || e.hasTerminalError ==>
                  after[i].ctype == Terminal && after[i].message == Some(e.text))
            && (!e.isSecretError && !e.hasTerminalError && e.apiCode == Some("ValidationException") ==>
                  after[i].ctype == Terminal && after[i].message == Some(e.apiText))
            && (!e.isSecretError && !e.hasTerminalError && e.apiCode != Some("ValidationException") ==>
                  && after[i].ctype == Recoverable
                  && after[i].message == Some(if e.apiCode.Some? then e.apiText else e.text))
  {
    var last := LastOf(cs, if IsTerminal(Some(e)) then Terminal else Recoverable);
    SetLastKeepsLast(cs, Terminal, False, None, Recoverable);
    i := if last == -1 then |cs| else last;
  }

  /** Without a terminal error the last Terminal condition is False with no message; without any error
      so is the last Recoverable one. */
  lemma UpdateRelieves(cs: seq<ConditionValue>, err: Option<Error>, i: nat)
    requires i < |cs| && forall j :: i < j < |cs| ==> cs[j].ctype != cs[i].ctype
    requires || (cs[i].ctype == Recoverable && err.None?)
             || (cs[i].ctype == Terminal
                 && (err.None? || !(|| err.value.apiCode == Some("ValidationException")
                                    || err.value.isSecretError || err.value.hasTerminalError)))
    ensures Updated(cs, err)[i] == cs[i].(status := False, message := None)
  {
    SetLastKeepsLast(cs, Terminal, False, None, Recoverable);
    assert LastOf(cs, cs[i].ctype) == i;
  }

  /** A Terminal=True set by a hook survives onSuccess exactly when the list held more than one
      Terminal condition: the hook sets the first, onSuccess clears the last. */
  lemma HookTerminalDoesNotSurviveSuccess(cs: seq<ConditionValue>, message: Option<string>)
    ensures Has(WithTerminal(cs, True, message, None), Terminal)
    ensures Has(Updated(WithTerminal(cs, True, message, None), None), Terminal) <==> !AtMostOne(cs, Terminal)
  {
    var hooked := WithTerminal(cs, True, message, None);
    var first := FirstOf(cs, Terminal);
    TerminalAfterUpdate(hooked, None);
    assert hooked[if first == -1 then |cs| else first].status == True;
    if !AtMostOne(cs, Terminal) {
      var i, j :| 0 <= i < j < |cs| && cs[i].ctype == Terminal && cs[j].ctype == Terminal;
      assert first <= i < j && hooked[first].status == True && hooked[j].ctype == Terminal;
    }
  }

  lemma HookKeepsAtMostOne(cs: seq<ConditionValue>, status: ConditionStatus, message: Option<string>,
          reason: Option<string>, t: ConditionType)
    requires AtMostOne(cs, t)
    ensures AtMostOne(WithTerminal(cs, status, message, reason), t)
  {
  }

  // ---------------------------------------------------------------- runs

  /** What happens to a resource's conditions: an operation fails; an operation succeeds, a hook
      having set Terminal or not; or the runtime sets a condition of another type. */
  datatype Event =
    | OperationFails(error: Error)
    | OperationSucceeds(hook: Option<(ConditionStatus, Option<string>)>)
    | RuntimeSets(name: string, status: ConditionStatus, message: Option<string>)
    | RuntimeSetsSynced(status: ConditionStatus, message: Option<string>)

  function ConditionsAfter(cs: seq<ConditionValue>, e: Event): seq<ConditionValue> {
    match e
    case OperationFails(error) => Updated(cs, Some(error))
    case OperationSucceeds(hook) =>
      Updated(if hook.Some? then WithTerminal(cs, hook.value.0, hook.value.1, None) else cs, None)
    case RuntimeSets(name, status, message) => UpsertLast(cs, OtherType(name), status, message)
    case RuntimeSetsSynced(status, message) => UpsertLast(cs, ResourceSynced, status, message)
  }

  function ConditionsAfterAll(cs: seq<ConditionValue>, events: seq<Event>): seq<ConditionValue> {
    if events == [] then cs else ConditionsAfter(ConditionsAfterAll(cs, events[..|events| - 1]), events[|events| - 1])
  }

  ghost predicate OnePerType(cs: seq<ConditionValue>) {
    AtMostOne(cs, Terminal) && AtMostOne(cs, Recoverable)
  }

  lemma UpsertKeepsAtMostOne(cs: seq<ConditionValue>, t: ConditionType, status: ConditionStatus,
          message: Option<string>, u: ConditionType)
    requires AtMostOne(cs, u)
    ensures AtMostOne(UpsertLast(cs, t, status, message), u)
  {
  }

  lemma StepKeepsAtMostOne(cs: seq<ConditionValue>, e: Event, t: ConditionType)
    requires AtMostOne(cs, t)
    ensures AtMostOne(ConditionsAfter(cs, e), t)
  {
    match e
    case OperationFails(error) => UpdateKeepsAtMostOne(cs, Some(error), t);
    case OperationSucceeds(hook) =>
      if hook.Some? {
        HookKeepsAtMostOne(cs, hook.value.0, hook.value.1, None, t);
        UpdateKeepsAtMostOne(WithTerminal(cs, hook.value.0, hook.value.1, None), None, t);
      } else {
        UpdateKeepsAtMostOne(cs, None, t);
      }
    case RuntimeSets(name, status, message) => UpsertKeepsAtMostOne(cs, OtherType(name), status, message, t);
    case RuntimeSetsSynced(status, message) => UpsertKeepsAtMostOne(cs, ResourceSynced, status, message, t);
  }

  /** Over any run, starting with at most one condition of each of the two types: that stays so, and
      the last operation alone decides what is True, but for a Recoverable left by earlier failures. */
  lemma {:induction false} RunInvariant(cs: seq<ConditionValue>, events: seq<Event>)
    requires OnePerType(cs)
    ensures OnePerType(ConditionsAfterAll(cs, events))
    ensures events != [] ==>
              var last, before := events[|events| - 1], ConditionsAfterAll(cs, events[..|events| - 1]);
              var now := ConditionsAfterAll(cs, events);
              && (last.OperationFails? ==>
                    var terminal := || last.error.apiCode == Some("ValidationException")
                                    || last.error.isSecretError || last.error.hasTerminalError;
                    && (Has(now, Terminal) <==> terminal)
                    && (Has(now, Recoverable) <==> !terminal || Has(before, Recoverable)))
              && (last.OperationSucceeds? ==> !Has(now, Terminal) && !Has(now, Recoverable))
  {
    if events != [] {
      var n := |events| - 1;
      var before := ConditionsAfterAll(cs, events[..n]);
      RunInvariant(cs, events[..n]);
      StepKeepsAtMostOne(before, events[n], Terminal);
      StepKeepsAtMostOne(before, events[n], Recoverable);
      match events[n]
      case OperationFails(error) => OutcomeOfUpdate(before, Some(error));
      case OperationSucceeds(hook) =>
        if hook.Some? {
          HookKeepsAtMostOne(before, hook.value.0, hook.value.1, None, Terminal);
          HookKeepsAtMostOne(before, hook.value.0, hook.value.1, None, Recoverable);
          OutcomeOfUpdate(WithTerminal(before, hook.value.0, hook.value.1, None), None);
        } else {
          OutcomeOfUpdate(before, None);
        }
      case RuntimeSets(_, _, _) =>
      case RuntimeSetsSynced(_, _) =>
    }
  }
}
