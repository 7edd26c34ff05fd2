/**
 The abandon handler: the pre-checks, the audit message, the guarded
 transition `DoAbandonChange` and the orchestration `Call` that notifies
 reviewers only when the transition was applied and always returns the
 detail view of the change.

 The collaborators of the handler are values here: the access decision of
 the change control, the fresh message uuid, the clock reading used to bump
 the change's timestamp, and the current user's account id.
 */
module AbandonChange {
  import opened Wrappers
  import opened ReviewDb
  import opened AbandonMessage

  /** What the change control decides for the current user and the change. */
  datatype Access = Access(visible: bool, canAbandon: bool)

  /** `NoSuchChangeException`, carrying the id of the change asked for. */
  datatype Error = NoSuchChange(changeId: ChangeId)

  /** What the abandoned-change email is built from. */
  datatype Notification = Notification(change: Change, from: AccountId, message: ChangeMessage)

  /** The detail view returned to the caller, reduced to the change row it shows. */
  datatype ChangeDetail = ChangeDetail(change: Change)

  /** The effect of one database transaction: whether it wrote, and the database after it. */
  datatype Transaction = Transaction(applied: bool, store: Store)

  datatype Outcome = Outcome(applied: bool, store: Store, notification: Option<Notification>, detail: ChangeDetail)

  datatype Result = Ok(value: Outcome) | Err(error: Error)

  /**
   The concurrency guard: the change is still open and its current patch set
   is still the one the user asked to abandon.
   */
  predicate IsAbandonable(change: Change, psId: PatchSetId) {
    change.status.IsOpen() && change.currentPatchSetId == psId
  }

  /** `PatchSetApproval.cache(change)`: the approval takes over the change's status. */
  function Cache(a: PatchSetApproval, change: Change): (r: PatchSetApproval)
    ensures r.key == a.key && r.value == a.value
    ensures r.cachedStatus == change.status
  {
    a.(cachedStatus := change.status)
  }

  /**
   The approvals table after every approval of `change` has been re-cached
   and written back; approvals of other changes are not touched.
   */
  function Recache(approvals: seq<PatchSetApproval>, change: Change): (r: seq<PatchSetApproval>)
    ensures |r| == |approvals|
    ensures forall i :: 0 <= i < |r| ==> r[i].key == approvals[i].key && r[i].value == approvals[i].value
    ensures forall i :: 0 <= i < |r| && approvals[i].ChangeId() == change.id ==> r[i].cachedStatus == change.status
    ensures forall i :: 0 <= i < |r| && approvals[i].ChangeId() != change.id ==> r[i] == approvals[i]
    decreases |approvals|
  {
    if |approvals| == 0 then []
    else
      var head := if approvals[0].ChangeId() == change.id then Cache(approvals[0], change) else approvals[0];
      [head] + Recache(approvals[1..], change)
  }

  /** The change row after abandoning: status `ABANDONED`, timestamp bumped to `now`. */
  function AbandonedRow(change: Change, now: Timestamp): (c: Change)
    ensures c.status == Abandoned && !c.status.IsOpen()
    ensures c.id == change.id && c.currentPatchSetId == change.currentPatchSetId
    ensures c.lastUpdatedOn == now
  {
    change.(status := Abandoned, lastUpdatedOn := now)
  }

  /**
   `doAbandonChange`: one atomic step. When the guard holds on the change as
   read before the transaction, the change row, its approvals and the message
   log are written together; otherwise nothing is written.
   */
  function DoAbandonChange(s: Store, change: Change, psId: PatchSetId, cmsg: ChangeMessage, now: Timestamp): (t: Transaction)
    ensures t.applied <==> IsAbandonable(change, psId)
    ensures !t.applied ==> t.store == s
    ensures t.applied ==>
      && t.store.changes.Keys == s.changes.Keys + {change.id}
      && t.store.changes[change.id] == AbandonedRow(change, now)
      && (forall id :: id in s.changes && id != change.id ==> t.store.changes[id] == s.changes[id])
      && t.store.patchSets == s.patchSets
      && t.store.messages == s.messages + [cmsg]
      && |t.store.approvals| == |s.approvals|
      && (forall i :: 0 <= i < |s.approvals| && s.approvals[i].ChangeId() == change.id ==>
            t.store.approvals[i] == s.approvals[i].(cachedStatus := Abandoned))
      && (forall i :: 0 <= i < |s.approvals| && s.approvals[i].ChangeId() != change.id ==>
            t.store.approvals[i] == s.approvals[i])
  {
    if IsAbandonable(change, psId) then
      var updated := AbandonedRow(change, now);
      var approvals := Recache(s.approvals, updated);
      Transaction(true, Store(s.changes[updated.id := updated], s.patchSets, approvals, s.messages + [cmsg]))
    else
      Transaction(false, s)
  }

  /** Whether both pre-checks pass: the change is visible and may be abandoned, and the patch set exists. */
  predicate PreChecksPass(s: Store, psId: PatchSetId, access: Access) {
    && psId.changeId in s.changes
    && access.visible
    && access.canAbandon
    && psId in s.patchSets
  }

  /** The change message the handler builds for the change as read. */
  function AbandonMessageFor(change: Change, psId: PatchSetId, message: Option<string>, user: AccountId, uuid: string): (m: ChangeMessage)
    ensures m.key == MessageKey(psId.changeId, uuid) && m.author == user
    ensures ParseAbandonText(m.message) == Some((change.currentPatchSetId.number, NoteOf(message)))
  {
    AbandonTextRoundTrip(change.currentPatchSetId.number, message);
    ChangeMessage(MessageKey(psId.changeId, uuid), user, AbandonText(change.currentPatchSetId.number, message))
  }

  /**
   `call()`: the pre-checks, the message, the transaction, the notification
   when the transaction applied, and the detail view of the change.
   */
  function Call(s: Store, psId: PatchSetId, message: Option<string>, user: AccountId, access: Access, uuid: string, now: Timestamp): (r: Result)
    ensures r.Ok? <==> PreChecksPass(s, psId, access)
    ensures !access.canAbandon ==> r == Err(NoSuchChange(psId.changeId))
    ensures psId !in s.patchSets ==> r == Err(NoSuchChange(psId.changeId))
    ensures r.Err? ==> r.error == NoSuchChange(psId.changeId)
    ensures r.Ok? ==>
      var o := r.value;
      var change := s.changes[psId.changeId];
      var cmsg := AbandonMessageFor(change, psId, message, user, uuid);
      && (o.applied <==> IsAbandonable(change, psId))
      && (!o.applied ==> o.store == s && o.notification == None)
      && (o.applied ==> o.store.messages == s.messages + [cmsg])
      && (o.applied ==> o.notification == Some(Notification(AbandonedRow(change, now), user, cmsg)))
      && psId.changeId in o.store.changes
      && o.detail == ChangeDetail(o.store.changes[psId.changeId])
  {
    var changeId := psId.changeId;
    if changeId !in s.changes || !access.visible then
      Err(NoSuchChange(changeId))
    else if !access.canAbandon then
      Err(NoSuchChange(changeId))
    else
      var change := s.changes[changeId];
      if psId !in s.patchSets then
        Err(NoSuchChange(changeId))
      else
        var cmsg := AbandonMessageFor(change, psId, message, user, uuid);
        var txn := DoAbandonChange(s, change, psId, cmsg, now);
        var notification := if txn.applied then Some(Notification(AbandonedRow(change, now), user, cmsg)) else None;
        Ok(Outcome(txn.applied, txn.store, notification, ChangeDetail(txn.store.changes[changeId])))
  }
}
