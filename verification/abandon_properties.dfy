/**
 Properties that relate several runs of the abandon handler, or the handler
 to the consistency of the database it writes.
 */
module AbandonProperties {
  import opened Wrappers
  import opened ReviewDb
  import opened AbandonMessage
  import opened AbandonChange

  /**
   Running the transition again on the change it produced is a no-op: the
   change is no longer open, so the guard fails and nothing is written.
   */
  lemma DoAbandonChangeIdempotent(s: Store, change: Change, psId: PatchSetId, cmsg: ChangeMessage, now: Timestamp,
                                  cmsg2: ChangeMessage, now2: Timestamp)
    ensures var t1 := DoAbandonChange(s, change, psId, cmsg, now);
            var after := if t1.applied then AbandonedRow(change, now) else change;
            var t2 := DoAbandonChange(t1.store, after, psId, cmsg2, now2);
            !t2.applied && t2.store == t1.store
  {
  }

  /**
   A second abandon of the same patch set, by any user whose access passes the
   pre-checks and with any note, is a no-op that returns the same detail view
   and sends no notification.
   */
  lemma CallIdempotent(s: Store, psId: PatchSetId,
                       message: Option<string>, user: AccountId, access: Access, uuid: string, now: Timestamp,
                       message2: Option<string>, user2: AccountId, access2: Access, uuid2: string, now2: Timestamp)
    requires RowsKeyedById(s)
    requires access2.visible && access2.canAbandon
    requires Call(s, psId, message, user, access, uuid, now).Ok?
    ensures var o1 := Call(s, psId, message, user, access, uuid, now).value;
            var r2 := Call(o1.store, psId, message2, user2, access2, uuid2, now2);
            && r2.Ok?
            && !r2.value.applied
            && r2.value.store == o1.store
            && r2.value.notification == None
            && r2.value.detail == o1.detail
  {
  }

  /**
   Of two abandons of the same change run one after the other, at most one
   applies, whatever patch sets they name.
   */
  lemma AtMostOneAbandonApplies(s: Store, ps1: PatchSetId, ps2: PatchSetId, access1: Access, access2: Access,
                                message1: Option<string>, user1: AccountId, uuid1: string, now1: Timestamp,
                                message2: Option<string>, user2: AccountId, uuid2: string, now2: Timestamp)
    requires RowsKeyedById(s)
    requires ps1.changeId == ps2.changeId
    requires Call(s, ps1, message1, user1, access1, uuid1, now1).Ok?
    ensures var o1 := Call(s, ps1, message1, user1, access1, uuid1, now1).value;
            var r2 := Call(o1.store, ps2, message2, user2, access2, uuid2, now2);
            r2.Ok? ==> !(o1.applied && r2.value.applied)
  {
  }

  /**
   The guard is evaluated on the change as read before the transaction, not on
   the stored row. Two transitions guarded by the same earlier read both apply
   and append two messages, so at most one abandon applying depends on each
   call reading the store afresh, as `Call` does.
   */
  lemma StaleGuardAppliesTwice(s: Store, change: Change, psId: PatchSetId, cmsg1: ChangeMessage, now1: Timestamp,
                               cmsg2: ChangeMessage, now2: Timestamp)
    requires IsAbandonable(change, psId)
    ensures var t1 := DoAbandonChange(s, change, psId, cmsg1, now1);
            var t2 := DoAbandonChange(t1.store, change, psId, cmsg2, now2);
            && t1.applied && t2.applied
            && t2.store.messages == s.messages + [cmsg1, cmsg2]
  {
  }

  /**
   An applied abandon re-caches exactly the approvals of the abandoned change
   to `ABANDONED`; approvals of other changes, other changes and the patch
   sets are left alone.
   */
  lemma CallRecachesApprovals(s: Store, psId: PatchSetId, message: Option<string>, user: AccountId,
                              access: Access, uuid: string, now: Timestamp)
    requires Valid(s)
    requires Call(s, psId, message, user, access, uuid, now).Ok?
    requires Call(s, psId, message, user, access, uuid, now).value.applied
    ensures var s' := Call(s, psId, message, user, access, uuid, now).value.store;
            && s'.changes.Keys == s.changes.Keys
            && s'.changes[psId.changeId].status == Abandoned
            && (forall id :: id in s.changes && id != psId.changeId ==> s'.changes[id] == s.changes[id])
            && s'.patchSets == s.patchSets
            && |s'.approvals| == |s.approvals|
            && (forall i :: 0 <= i < |s.approvals| && s.approvals[i].ChangeId() == psId.changeId ==>
                  s'.approvals[i].cachedStatus == Abandoned
                  && s'.approvals[i].key == s.approvals[i].key
                  && s'.approvals[i].value == s.approvals[i].value)
            && (forall i :: 0 <= i < |s.approvals| && s.approvals[i].ChangeId() != psId.changeId ==>
                  s'.approvals[i] == s.approvals[i])
  {
  }

  /**
   The message an applied abandon appends names the patch set that was
   asked for, which the guard made the current one, and carries the note.
   */
  lemma AppliedMessageNamesRequestedPatchSet(s: Store, psId: PatchSetId, message: Option<string>, user: AccountId,
                                             access: Access, uuid: string, now: Timestamp)
    requires Call(s, psId, message, user, access, uuid, now).Ok?
    requires Call(s, psId, message, user, access, uuid, now).value.applied
    ensures var s' := Call(s, psId, message, user, access, uuid, now).value.store;
            && |s'.messages| == |s.messages| + 1
            && s'.messages[|s.messages|].key == MessageKey(psId.changeId, uuid)
            && s'.messages[|s.messages|].author == user
            && ParseAbandonText(s'.messages[|s.messages|].message) == Some((psId.number as int, NoteOf(message)))
  {
  }

  /**
   The transition keeps a consistent database consistent when it is given the
   stored change and a message with a fresh key of that change.
   */
  lemma DoAbandonChangePreservesValid(s: Store, change: Change, psId: PatchSetId, cmsg: ChangeMessage, now: Timestamp)
    requires Valid(s) && change.id in s.changes && s.changes[change.id] == change
    requires FreshMessageKey(s, cmsg.key) && cmsg.key.changeId == change.id
    ensures Valid(DoAbandonChange(s, change, psId, cmsg, now).store)
  {
  }

  /**
   Abandoning keeps a consistent database consistent, provided the message
   uuid is fresh: in particular every approval's cached status still equals
   the status of its change after the commit.
   */
  lemma CallPreservesValid(s: Store, psId: PatchSetId, message: Option<string>, user: AccountId,
                           access: Access, uuid: string, now: Timestamp)
    requires Valid(s)
    requires FreshMessageKey(s, MessageKey(psId.changeId, uuid))
    requires Call(s, psId, message, user, access, uuid, now).Ok?
    ensures Valid(Call(s, psId, message, user, access, uuid, now).value.store)
  {
  }
}
