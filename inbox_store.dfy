/** The thread-to-thread inbox: messages are created pending and move to
  * delivered exactly once. */
module InboxStore {
  import opened Text
  import opened StoreSchema

  /** `CreateInboxMessage`'s argument checks, in order. */
  function ValidateInboxMessage(sender: int, receiver: int, message: string): (r: Option<string>)
    ensures r.None? <==> sender > 0 && receiver > 0 && !IsBlank(message)
    ensures sender <= 0 ==> r == Some("sender_thread_id is required")
    ensures sender > 0 && receiver <= 0 ==> r == Some("receiver_thread_id is required")
    ensures sender > 0 && receiver > 0 && IsBlank(message) ==> r == Some("message is required")
  {
    if sender <= 0 then Some("sender_thread_id is required")
    else if receiver <= 0 then Some("receiver_thread_id is required")
    else if IsBlank(message) then Some("message is required")
    else None
  }

  /** The message row a valid create inserts: trimmed text, pending, not
    * yet delivered. */
  function NewMessage(sender: int, receiver: int, message: string, now: int): (m: InboxMessage)
    ensures m.sender == sender && m.receiver == receiver && m.message == TrimSpace(message)
    ensures m.status == "pending" && m.deliveredAt.None? && m.createdAt == now
  {
    InboxMessage(sender, receiver, TrimSpace(message), "pending", now, None)
  }

  /** `CreateInboxMessage`. */
  method CreateInboxMessage(st: Store, sender: int, receiver: int, message: string, now: int) returns (r: Result<int>)
    requires st.Valid()
    modifies st`inbox, st`dbVersion, st`mirrorUpdatedAt
    ensures st.Valid()
    ensures ValidateInboxMessage(sender, receiver, message).Some? ==>
      r == Err(ValidateInboxMessage(sender, receiver, message).value)
    ensures r.Ok? <==> ValidateInboxMessage(sender, receiver, message).None?
    ensures r.Err? ==> st.inbox == old(st.inbox) && st.NotBumped()
    ensures r.Ok? ==>
      r.value == old(st.inbox.lastId) + 1
      && st.inbox == old(st.inbox).Insert(NewMessage(sender, receiver, message, now)) && st.Bumped(now)
  {
    var invalid := ValidateInboxMessage(sender, receiver, message);
    if invalid.Some? {
      return Err(invalid.value);
    }
    var id := st.InsertInboxMessage(NewMessage(sender, receiver, message, now));
    st.BumpVersion(now);
    r := Ok(id);
  }

  predicate IsPendingFor(m: InboxMessage, receiver: int) {
    m.receiver == receiver && m.status == "pending"
  }

  predicate Involves(m: InboxMessage, thread: int) {
    m.sender == thread || m.receiver == thread
  }

  /** `ListPendingInboxMessages`: the receiver's pending messages, oldest
    * first. */
  method ListPendingInboxMessages(st: Store, receiver: int) returns (ids: seq<int>)
    requires st.Valid()
    ensures forall id :: id in ids <==> id in st.inbox.rows && IsPendingFor(st.inbox.rows[id], receiver)
    ensures forall i, j :: 0 <= i < j < |ids| ==> ids[i] < ids[j]
  {
    ids := SelectIds(st.inbox, (m: InboxMessage) => IsPendingFor(m, receiver));
  }

  /** `ListInboxMessages`: every message the thread sent or received, oldest
    * first. */
  method ListInboxMessages(st: Store, thread: int) returns (ids: seq<int>)
    requires st.Valid()
    ensures forall id :: id in ids <==> id in st.inbox.rows && Involves(st.inbox.rows[id], thread)
    ensures forall i, j :: 0 <= i < j < |ids| ==> ids[i] < ids[j]
  {
    ids := SelectIds(st.inbox, (m: InboxMessage) => Involves(m, thread));
  }

  /** A message that `MarkInboxMessageDelivered` can still move. */
  predicate Deliverable(t: Table<InboxMessage>, id: int) {
    id in t.rows && t.rows[id].status == "pending"
  }

  function Delivered(m: InboxMessage, now: int): (d: InboxMessage)
    ensures d.status == "delivered" && d.deliveredAt == Some(now)
    ensures d.sender == m.sender && d.receiver == m.receiver && d.message == m.message && d.createdAt == m.createdAt
  {
    m.(status := "delivered", deliveredAt := Some(now))
  }

  function NotDeliverable(id: int): string {
    "inbox message not found or already delivered: " + IntToString(id)
  }

  /** `MarkInboxMessageDelivered`: only a pending message moves, and it
    * moves to delivered with the delivery time. */
  method MarkInboxMessageDelivered(st: Store, id: int, now: int) returns (r: Result<InboxMessage>)
    requires st.Valid()
    modifies st`inbox, st`dbVersion, st`mirrorUpdatedAt
    ensures st.Valid()
    ensures r.Ok? <==> Deliverable(old(st.inbox), id)
    ensures r.Err? ==> r.msg == NotDeliverable(id) && st.inbox == old(st.inbox) && st.NotBumped()
    ensures r.Ok? ==>
      r.value == Delivered(old(st.inbox.rows[id]), now)
      && st.inbox == old(st.inbox).Put(id, r.value) && st.Bumped(now)
  {
    if !Deliverable(st.inbox, id) {
      return Err(NotDeliverable(id));
    }
    var d := Delivered(st.inbox.rows[id], now);
    st.PutInboxMessage(id, d);
    r := Ok(d);
    st.BumpVersion(now);
  }

  /** Delivery happens at most once: a delivered message cannot be
    * delivered again. */
  lemma DeliverOnce(t: Table<InboxMessage>, id: int, now: int)
    requires Deliverable(t, id)
    ensures !Deliverable(t.Put(id, Delivered(t.rows[id], now)), id)
  {
  }

  /** Delivering a message takes exactly that message off its receiver's
    * pending list and leaves every other thread's pending list alone. */
  lemma DeliverLeavesPending(t: Table<InboxMessage>, id: int, now: int, receiver: int)
    requires Deliverable(t, id)
    ensures var after := t.Put(id, Delivered(t.rows[id], now));
      forall k :: (k in after.rows && IsPendingFor(after.rows[k], receiver))
        <==> (k in t.rows && IsPendingFor(t.rows[k], receiver) && k != id)
  {
  }

  /** A new message shows up on its receiver's pending list, and on the
    * lists of both threads. */
  lemma NewMessageListed(t: Table<InboxMessage>, sender: int, receiver: int, message: string, now: int)
    requires t.Valid()
    ensures var after := t.Insert(NewMessage(sender, receiver, message, now));
      t.lastId + 1 in after.rows && IsPendingFor(after.rows[t.lastId + 1], receiver)
      && Involves(after.rows[t.lastId + 1], sender)
      && forall k :: k in t.rows ==> k in after.rows && after.rows[k] == t.rows[k]
  {
    InsertFresh(t, NewMessage(sender, receiver, message, now));
  }
}
