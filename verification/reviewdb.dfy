/**
 The rows of the review database that abandoning a change touches: changes,
 patch sets, patch set approvals and change messages. Each table is an
 immutable value; a `Store` is one snapshot of all four.
 */
module ReviewDb {

  /** Java `int`: every id below is a 32-bit integer in the source. */
  type Int32 = x: int | -0x8000_0000 <= x < 0x8000_0000

  /** `Change.Id` */
  type ChangeId = Int32

  /** `Account.Id` */
  type AccountId = Int32

  /** `java.sql.Timestamp`, kept abstract. */
  type Timestamp = int

  /** `PatchSet.Id`: the parent change and the patch set number (`get()`). */
  datatype PatchSetId = PatchSetId(changeId: ChangeId, number: Int32)

  /** `Change.Status`; new and submitted changes are the open ones. */
  datatype Status = New | Submitted | Merged | Abandoned {
    predicate IsOpen() {
      New? || Submitted?
    }
  }

  datatype Change = Change(
    id: ChangeId,
    status: Status,
    currentPatchSetId: PatchSetId,
    lastUpdatedOn: Timestamp)

  /** `PatchSetApproval.Key`: the patch set, the reviewer and the category. */
  datatype ApprovalKey = ApprovalKey(patchSetId: PatchSetId, accountId: AccountId, categoryId: string)

  /** A reviewer's score, with the parent change's status cached beside it. */
  datatype PatchSetApproval = PatchSetApproval(key: ApprovalKey, value: int, cachedStatus: Status) {
    function ChangeId(): ChangeId {
      key.patchSetId.changeId
    }
  }

  /** `ChangeMessage.Key`: the change and a unique message uuid. */
  datatype MessageKey = MessageKey(changeId: ChangeId, uuid: string)

  datatype ChangeMessage = ChangeMessage(key: MessageKey, author: AccountId, message: string)

  datatype Store = Store(
    changes: map<ChangeId, Change>,
    patchSets: set<PatchSetId>,
    approvals: seq<PatchSetApproval>,
    messages: seq<ChangeMessage>)

  /** An approval whose cache agrees with the change it belongs to. */
  predicate ApprovalCurrent(s: Store, a: PatchSetApproval) {
    && a.key.patchSetId in s.patchSets
    && a.ChangeId() in s.changes
    && s.changes[a.ChangeId()].status == a.cachedStatus
  }

  /** Every change row is stored under its own id. */
  predicate RowsKeyedById(s: Store) {
    forall id :: id in s.changes ==> s.changes[id].id == id
  }

  /** The consistency a committed database keeps between its tables. */
  predicate Valid(s: Store) {
    && RowsKeyedById(s)
    && (forall id :: id in s.changes ==>
          && s.changes[id].currentPatchSetId.changeId == id
          && s.changes[id].currentPatchSetId in s.patchSets)
    && (forall ps :: ps in s.patchSets ==> ps.changeId in s.changes)
    && (forall i :: 0 <= i < |s.approvals| ==> ApprovalCurrent(s, s.approvals[i]))
    && (forall i :: 0 <= i < |s.messages| ==> s.messages[i].key.changeId in s.changes)
    && (forall i, j :: 0 <= i < j < |s.messages| ==> s.messages[i].key != s.messages[j].key)
  }

  /** A message key no message in the log already uses. */
  predicate FreshMessageKey(s: Store, key: MessageKey) {
    forall i :: 0 <= i < |s.messages| ==> s.messages[i].key != key
  }
}
