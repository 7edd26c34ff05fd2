# Abandoning a change (Gerrit `AbandonChange`)

This project models the RPC handler that abandons a Gerrit change. A caller
names a patch set and may add a note. The handler makes two pre-checks. The
caller must be allowed to abandon the change, and the patch set must exist.
It then builds the change message "Patch Set N: Abandoned". When the note is
non-null and non-empty, a blank line and the note are appended. Next comes
one transaction, guarded by a check that the change is still open and that
its current patch set is the one named. If the guard holds, the transaction
does four things together:

- it marks the change `ABANDONED` and bumps its timestamp;
- it re-caches the status into every approval of the change;
- it appends the message;
- it writes the change row.

Reviewers are notified only when the transaction applied. The detail view of
the change is returned either way.

The database is an immutable `Store` value with four tables: changes, patch
sets, approvals and messages. The handler is a pure function from one store
to a `Result`. That result is either `NoSuchChange` or an `Outcome`, which
holds whether the transition applied, the new store, the notification (if
any) and the detail view.

Modules:

- `Wrappers`: `Option`, where `None` models a Java `null`.
- `Decimal`: `Integer.toString` as used by `"Patch Set " + n`, and its inverse.
- `ReviewDb`: the entities, the `Store`, and `Valid`, the consistency a
  committed database keeps. One part of `Valid` is that every approval's
  cached status equals its change's status.
- `AbandonMessage`: the audit text and a parser that reads it back.
- `AbandonChange`: the guard, `doAbandonChange`, and `call()`.
- `AbandonProperties`: lemmas relating runs of the handler to each other
  and to `Valid`.

The handler's collaborators become parameters of `Call`:

- the change control's decision, as `Access(visible, canAbandon)`;
- the current user's account id;
- the fresh uuid that `ChangeUtil.messageUUID` would produce;
- the clock reading that `ChangeUtil.updated` would stamp on the change.

Assumptions about code that is not part of this model:

- `Change.Status` has the values `NEW`, `SUBMITTED`, `MERGED` and
  `ABANDONED`, and `isOpen()` holds for the first two. `Change.java` is not
  part of this model.
- `PatchSetApproval.cache(change)` copies the change's status into the
  approval. `PatchSetApproval.java` is not part of this model.
- `validateFor` fails with `NoSuchChangeException` when the change row is
  absent or the change is not visible to the user.

Facts about the source that the model keeps:

- The headline is built as `"Patch Set " + change.currentPatchSetId().get()
  + ": Abandoned"` (AbandonChange.java:92-93). It names the change's current
  patch set, not the requested one.
- Both pre-checks throw `NoSuchChangeException(changeId)` (lines 80 and 85),
  so both failures produce the same error.
- The guard at line 125 reads the `change` fetched at line 82, before the
  transaction. It does not re-read the row inside the transaction.
  `StaleGuardAppliesTwice` shows what this means: two transitions guarded by
  the same earlier read both apply. `AtMostOneAbandonApplies` holds because
  each `Call` reads the store afresh.
- The notification at line 109 gets the `change` object that
  `doAbandonChange` mutated in place, so it carries the abandoned row.

## Model

| member | source | states |
|---|---|---|
| Decimal.NatToString | gerrit-httpd/src/main/java/com/google/gerrit/httpd/rpc/changedetail/AbandonChange.java:92-93 | the rendering of the patch set number is a non-empty digit string that starts with '0' only for zero |
| Decimal.IntToString | gerrit-httpd/src/main/java/com/google/gerrit/httpd/rpc/changedetail/AbandonChange.java:92-93 | Java's int-to-string holds only digits and a minus sign, which comes first exactly for negative numbers |
| Decimal.ParseIntToString | gerrit-httpd/src/main/java/com/google/gerrit/httpd/rpc/changedetail/AbandonChange.java:92-93 | reading back the rendered patch set number gives the number |
| Decimal.IntToStringInjective | gerrit-httpd/src/main/java/com/google/gerrit/httpd/rpc/changedetail/AbandonChange.java:92-93 | different patch set numbers give different texts |
| AbandonMessage.AbandonText | gerrit-httpd/src/main/java/com/google/gerrit/httpd/rpc/changedetail/AbandonChange.java:91-98 | the text starts with "Patch Set <n>: Abandoned"; it is longer than that exactly when the note is non-null and non-empty, and then the rest is a blank line and the note |
| AbandonMessage.AbandonTextRoundTrip | gerrit-httpd/src/main/java/com/google/gerrit/httpd/rpc/changedetail/AbandonChange.java:91-98 | the patch set number and the note (empty when null or empty) can be read back from the text |
| AbandonMessage.AbandonTextInjective | gerrit-httpd/src/main/java/com/google/gerrit/httpd/rpc/changedetail/AbandonChange.java:91-98 | equal texts come from the same patch set number and the same note |
| AbandonMessage.AbandonTextExample | gerrit-httpd/src/main/java/com/google/gerrit/httpd/rpc/changedetail/AbandonChange.java:91-98 | patch set 3 with "not needed" gives "Patch Set 3: Abandoned\n\nnot needed"; an empty or null note gives the headline alone |
| AbandonChange.AbandonMessageFor | gerrit-httpd/src/main/java/com/google/gerrit/httpd/rpc/changedetail/AbandonChange.java:88-98 | the message is keyed by the change id and the fresh uuid, is authored by the current user, and its text names the change's current patch set and the note |
| AbandonChange.Cache | gerrit-httpd/src/main/java/com/google/gerrit/httpd/rpc/changedetail/AbandonChange.java:131-133 | re-caching keeps the approval's key and score and takes over the change's status |
| AbandonChange.Recache | gerrit-httpd/src/main/java/com/google/gerrit/httpd/rpc/changedetail/AbandonChange.java:129-134 | the approvals table keeps its length, keys and scores; approvals of the change get its status, all others are unchanged |
| AbandonChange.AbandonedRow | gerrit-httpd/src/main/java/com/google/gerrit/httpd/rpc/changedetail/AbandonChange.java:126-127 | the change row becomes ABANDONED, no longer open, and stamped with the new time; its id and current patch set are kept |
| AbandonChange.DoAbandonChange | gerrit-httpd/src/main/java/com/google/gerrit/httpd/rpc/changedetail/AbandonChange.java:119-142 | the result is true iff the change is open and its current patch set is the one asked for. On false nothing is written. On true the change row is abandoned, the log grows by exactly the one message, the change's approvals are re-cached as ABANDONED, and other changes, other approvals and the patch sets are unchanged |
| AbandonChange.Call | gerrit-httpd/src/main/java/com/google/gerrit/httpd/rpc/changedetail/AbandonChange.java:74-117 | it fails with NoSuchChange for the requested change iff a pre-check fails, in particular when the user cannot abandon or the patch set is missing. Otherwise it applies iff the guard holds; it notifies iff it applied, with the abandoned change, the user and the appended message; it writes nothing when not applied; it always returns the detail of the change as stored afterwards |
| AbandonProperties.DoAbandonChangeIdempotent | gerrit-httpd/src/main/java/com/google/gerrit/httpd/rpc/changedetail/AbandonChange.java:125-141 | running the transition again on the change it produced returns false and leaves the store as the first run left it |
| AbandonProperties.CallIdempotent | gerrit-httpd/src/main/java/com/google/gerrit/httpd/rpc/changedetail/AbandonChange.java:100-141 | when change rows are stored under their own ids, a second abandon of the same patch set succeeds as a no-op with no notification and the same detail view. This holds for any note and any user whose access passes the pre-checks |
| AbandonProperties.AtMostOneAbandonApplies | gerrit-httpd/src/main/java/com/google/gerrit/httpd/rpc/changedetail/AbandonChange.java:123-141 | when change rows are stored under their own ids, at most one of two abandons of the same change run in sequence applies, whatever patch sets they name and whoever calls |
| AbandonProperties.StaleGuardAppliesTwice | gerrit-httpd/src/main/java/com/google/gerrit/httpd/rpc/changedetail/AbandonChange.java:82-138 | the guard reads the change fetched before the transaction. Two transitions guarded by the same open, matching read both apply, and the log gains both messages |
| AbandonProperties.CallRecachesApprovals | gerrit-httpd/src/main/java/com/google/gerrit/httpd/rpc/changedetail/AbandonChange.java:126-137 | after an applied abandon on a consistent store, the requested change is ABANDONED and each of its approvals caches ABANDONED with key and score kept; other changes, their approvals and the patch sets are unchanged |
| AbandonProperties.AppliedMessageNamesRequestedPatchSet | gerrit-httpd/src/main/java/com/google/gerrit/httpd/rpc/changedetail/AbandonChange.java:88-138 | an applied abandon appends exactly one message, keyed by the change and the uuid and authored by the user, whose text names the requested patch set and carries the note |
| AbandonProperties.DoAbandonChangePreservesValid | gerrit-httpd/src/main/java/com/google/gerrit/httpd/rpc/changedetail/AbandonChange.java:119-142 | given the stored change and a message with a fresh key of that change, the transaction keeps the database consistent, whether or not it applies |
| AbandonProperties.CallPreservesValid | gerrit-httpd/src/main/java/com/google/gerrit/httpd/rpc/changedetail/AbandonChange.java:125-138 | given a fresh message uuid, abandoning keeps the database consistent; in particular every approval's cached status again equals its change's status |

## Left out

- Guice injection and the factory interfaces (lines 43-72): wiring only.
- ORM transaction mechanics (`db.run`, `Transaction`, the retry flag, `OrmException`). The transaction is one atomic step of the model, so a failure inside it is not modelled.
- Concurrency and row locking. Races are modelled only as two abandons run one after the other (`AtMostOneAbandonApplies`).
- ACL evaluation in `ChangeControl` (`validateFor`, `canAbandon`): reduced to the two booleans of `Access`.
- Email rendering and delivery by `AbandonedSender`, and `EmailException`: the model records only what the email is built from (`Notification`). A delivery failure comes after the commit and is not modelled.
- `ChangeDetailFactory` view assembly and the exceptions it may throw: the detail is reduced to the change row as stored after the transaction.
- `ChangeUtil.messageUUID`: a uuid parameter. Its uniqueness is an assumption, stated as `FreshMessageKey` where `CallPreservesValid` needs it.
- `ChangeUtil.updated`: only the timestamp bump is modelled, to a clock reading passed in. Any other derived field it refreshes, such as a sort key, is not.
- The written-on time of a `ChangeMessage` and the other columns of the change, patch set and approval rows that the handler does not read.
