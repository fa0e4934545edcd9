/**
  The user actions of src/store/actions.js that write local state: queueing
  read receipts in the outbox (`markRead`, `updateRemoteMessageStatus`),
  creating a direct or a group conversation, pinning, clearing a
  conversation, and sending a message.

  The store commits an action issues are appended to the store's event log
  and the server calls to its call log. The clock is the parameter `now`,
  one instant per action. The random job ids of `uuidv4` are the parameter
  `uuid`, applied to the position the job takes in the outbox.
*/
module Actions {
  import opened Base
  import opened Store
  import Util

  /** The outbox action that carries a message status to the server. */
  const SessionMessage := "CREATE_SESSION_MESSAGE"

  /** The outbox job `updateRemoteMessageStatus` queues (lines 19-31). */
  function StatusJob(jobId: string, messageId: string, status: MessageStatus, now: string): Job
  {
    Job(jobId, SessionMessage, now, None, 5, None, BlazeMessage(messageId, status), None, None, 0)
  }

  /** A job as `updateRemoteMessageStatus` queues it for a READ receipt:
      the session-message action, priority 5, never run, no conversation,
      user, order or resend reference. */
  predicate IsReadReceipt(j: Job)
  {
    j.action == SessionMessage && j.priority == 5 && j.runCount == 0 &&
    j.orderId == None && j.userId == None && j.conversationId == None && j.resendMessageId == None &&
    j.blazeMessage.status == READ
  }

  /** The READ jobs `markRead` queues for `unread`, the first one at outbox
      position `base`: one receipt per message, in their order. */
  function ReadJobs(unread: seq<Message>, uuid: nat -> string, base: nat, now: string): (r: seq<Job>)
    ensures |r| == |unread|
    ensures forall i :: 0 <= i < |unread| ==> IsReadReceipt(r[i]) && r[i].blazeMessage.messageId == unread[i].messageId
  {
    seq(|unread|, i requires 0 <= i < |unread| => StatusJob(uuid(base + i), unread[i].messageId, READ, now))
  }

  /** `messageId` is the id of an unread message of the conversation. */
  predicate IsUnreadId(messages: seq<Message>, conversationId: string, messageId: string)
  {
    exists m :: m in messages && IsUnread(m, conversationId) && m.messageId == messageId
  }

  /** `markRead` (lines 11-16): one READ job per unread message of the
      conversation, then the conversation's messages are marked read. */
  function MarkReadSpec(t: Tables, conversationId: string, uuid: nat -> string, now: string): Tables
  {
    t.(jobs := t.jobs + ReadJobs(Unread(t.messages, conversationId), uuid, |t.jobs|, now),
       messages := MarkMessagesRead(t.messages, conversationId))
  }

  /** The outbox grows by one job per unread message of the conversation,
      each a READ receipt for one of them; no earlier job changes. */
  lemma MarkReadQueuesReceipts(t: Tables, conversationId: string, uuid: nat -> string, now: string)
    ensures var r := MarkReadSpec(t, conversationId, uuid, now);
      |r.jobs| == |t.jobs| + |Unread(t.messages, conversationId)| && r.jobs[..|t.jobs|] == t.jobs &&
      forall j | |t.jobs| <= j < |r.jobs| ::
        IsReadReceipt(r.jobs[j]) && IsUnreadId(t.messages, conversationId, r.jobs[j].blazeMessage.messageId)
  {
    var jobs := MarkReadSpec(t, conversationId, uuid, now).jobs;
    var unread := Unread(t.messages, conversationId);
    var queued := ReadJobs(unread, uuid, |t.jobs|, now);
    assert jobs == t.jobs + queued;
    forall j | |t.jobs| <= j < |jobs|
      ensures IsReadReceipt(jobs[j])
      ensures IsUnreadId(t.messages, conversationId, jobs[j].blazeMessage.messageId)
    {
      var i := j - |t.jobs|;
      assert jobs[j] == queued[i];
      assert unread[i] in unread;
    }
  }

  /** Every unread message of the conversation gets a READ receipt. */
  lemma MarkReadCoversUnread(t: Tables, conversationId: string, uuid: nat -> string, now: string, m: Message)
    requires m in t.messages && IsUnread(m, conversationId)
    ensures var r := MarkReadSpec(t, conversationId, uuid, now);
      exists j :: |t.jobs| <= j < |r.jobs| && r.jobs[j].blazeMessage == BlazeMessage(m.messageId, READ)
  {
    var jobs := MarkReadSpec(t, conversationId, uuid, now).jobs;
    var unread := Unread(t.messages, conversationId);
    var queued := ReadJobs(unread, uuid, |t.jobs|, now);
    assert jobs == t.jobs + queued;
    assert m in unread;
    var i :| 0 <= i < |unread| && unread[i] == m;
    assert jobs[|t.jobs| + i] == queued[i];
  }

  /** Marking a conversation read a second time queues nothing and changes
      nothing: no unread message is left. */
  lemma MarkReadIdempotent(t: Tables, conversationId: string, uuid: nat -> string, now: string,
                           uuid2: nat -> string, later: string)
    ensures var r := MarkReadSpec(t, conversationId, uuid, now);
      Unread(r.messages, conversationId) == [] &&
      MarkReadSpec(r, conversationId, uuid2, later) == r
  {
    var r := MarkReadSpec(t, conversationId, uuid, now);
    NothingUnread(r.messages, conversationId);
    assert r.jobs + [] == r.jobs;
  }

  /** Marking read writes no keyed table. */
  lemma MarkReadKeys(t: Tables, conversationId: string, uuid: nat -> string, now: string)
    requires KeysMatch(t)
    ensures KeysMatch(MarkReadSpec(t, conversationId, uuid, now))
  {
  }

  /** `updateRemoteMessageStatus` (lines 18-32): queues one job carrying the
      message id and its new status; `jobId` stands for `uuidv4()`. */
  method UpdateRemoteMessageStatus(db: LocalStore, messageId: string, status: MessageStatus, jobId: string, now: string)
    modifies db
    ensures db.State() == old(db.State()).(jobs := old(db.jobs) + [StatusJob(jobId, messageId, status, now)])
  {
    db.InsertJob(StatusJob(jobId, messageId, status, now));
  }

  /** `markRead` (lines 11-16), the job ids drawn from `uuid` by outbox
      position. */
  method MarkRead(db: LocalStore, conversationId: string, uuid: nat -> string, now: string)
    modifies db
    ensures db.State() == MarkReadSpec(old(db.State()), conversationId, uuid, now)
  {
    var unread := db.FindUnread(conversationId);
    ghost var base := |db.jobs|;
    var i := 0;
    while i < |unread|
      invariant i <= |unread|
      invariant db.State() == old(db.State()).(jobs := old(db.jobs) + ReadJobs(unread[..i], uuid, base, now))
    {
      assert ReadJobs(unread[..i + 1], uuid, base, now) ==
        ReadJobs(unread[..i], uuid, base, now) + [StatusJob(uuid(base + i), unread[i].messageId, READ, now)];
      UpdateRemoteMessageStatus(db, unread[i].messageId, READ, uuid(|db.jobs|), now);
      i := i + 1;
    }
    assert unread[..i] == unread;
    db.MarkRead(conversationId);
  }

  /** The stored conversation `id` is a direct conversation with `peer`. */
  predicate IsContactOf(m: map<string, Conversation>, id: string, peer: string)
  {
    id in m && m[id].category == Some(CONTACT) && m[id].ownerId == peer
  }

  /** `conversationDao.getConversationByUserId(peer)`: some direct
      conversation with the peer, or `None` when there is none. */
  ghost predicate LookedUp(m: map<string, Conversation>, peer: string, found: Option<string>)
  {
    match found
    case None => forall id :: !IsContactOf(m, id, peer)
    case Some(id) => IsContactOf(m, id, peer)
  }

  /** Lines 45-62: the new direct conversation row. */
  function DirectConversation(conversationId: string, peer: string, now: string): Conversation
  {
    Conversation(conversationId, peer, Some(CONTACT), None, None, Some(""), None, None, now,
                 None, None, None, 0, START, None, None)
  }

  /** `createUserConversation` (lines 35-80). `shown` is the set of ids in
      `state.conversations`, `found` what the lookup by user returned. */
  function CreateUserConversationSpec(t: Tables, shown: set<string>, me: string, peer: string,
                                      found: Option<string>, md5: Util.Md5, now: string): Tables
  {
    if found.Some? && found.value in shown then
      t.(events := t.events + [SetCurrentConversation(found.value)])
    else
      var id := Util.GenerateConversationId(md5, me, peer);
      t.(conversations := t.conversations[id := DirectConversation(id, peer, now)],
         participants := PutParticipants(t.participants, DirectParticipants(id, me, peer, now)),
         events := t.events + [SetCurrentConversation(id)])
  }

  /** A conversation both stored for the peer and shown is only made
      current. */
  lemma CreateUserConversationShown(t: Tables, shown: set<string>, me: string, peer: string,
                                    found: Option<string>, md5: Util.Md5, now: string)
    requires found.Some? && found.value in shown
    ensures var r := CreateUserConversationSpec(t, shown, me, peer, found, md5, now);
      SameData(r, t) && r.calls == t.calls && r.events == t.events + [SetCurrentConversation(found.value)]
  {
  }

  /** Otherwise the direct conversation is created under the id derived from
      both users, whichever of them starts it: a START row owned by the peer
      that becomes current; no other conversation row, user, message or job
      changes. */
  lemma CreateUserConversationCreates(t: Tables, shown: set<string>, me: string, peer: string,
                                      found: Option<string>, md5: Util.Md5, now: string)
    requires !(found.Some? && found.value in shown)
    ensures var r := CreateUserConversationSpec(t, shown, me, peer, found, md5, now);
      var id := Util.GenerateConversationId(md5, me, peer);
      id == Util.GenerateConversationId(md5, peer, me) && Util.IsUuidText(id) &&
      r.conversations.Keys == t.conversations.Keys + {id} && r.conversations[id].conversationId == id &&
      r.conversations[id].ownerId == peer && r.conversations[id].category == Some(CONTACT) &&
      r.conversations[id].status == START && r.conversations[id].unseenMessageCount == 0 &&
      r.conversations[id].pinTime == None &&
      (forall other | other in t.conversations && other != id :: r.conversations[other] == t.conversations[other]) &&
      r.users == t.users && r.messages == t.messages && r.jobs == t.jobs && r.calls == t.calls &&
      r.events == t.events + [SetCurrentConversation(id)]
  {
    Util.GenerateConversationIdSymmetric(md5, me, peer);
  }

  /** The two participant rows of a direct conversation. */
  function DirectParticipants(conversationId: string, me: string, peer: string, now: string): seq<Participant>
  {
    [Participant(conversationId, me, "", now), Participant(conversationId, peer, "", now)]
  }

  /** Storing the two rows adds exactly the two users to the conversation. */
  lemma DirectParticipantIds(m: map<ParticipantKey, Participant>, conversationId: string, me: string, peer: string, now: string)
    ensures var r := m[(conversationId, me) := Participant(conversationId, me, "", now)]
                      [(conversationId, peer) := Participant(conversationId, peer, "", now)];
      LocalIds(r, conversationId) == LocalIds(m, conversationId) + {me, peer}
  {
    var r := m[(conversationId, me) := Participant(conversationId, me, "", now)]
              [(conversationId, peer) := Participant(conversationId, peer, "", now)];
    forall u ensures u in LocalIds(r, conversationId) <==> u in LocalIds(m, conversationId) + {me, peer} {
      LocalIdsMember(r, conversationId, u);
      LocalIdsMember(m, conversationId, u);
    }
  }

  /** The two users of a direct conversation become its participants with an
      empty role; other conversations' participants are untouched. */
  lemma CreateUserConversationParticipants(t: Tables, shown: set<string>, me: string, peer: string,
                                           found: Option<string>, md5: Util.Md5, now: string)
    requires !(found.Some? && found.value in shown)
    ensures var r := CreateUserConversationSpec(t, shown, me, peer, found, md5, now);
      var id := Util.GenerateConversationId(md5, me, peer);
      LocalIds(r.participants, id) == LocalIds(t.participants, id) + {me, peer} &&
      r.participants[(id, me)] == Participant(id, me, "", now) &&
      r.participants[(id, peer)] == Participant(id, peer, "", now) &&
      (forall k: ParticipantKey | k.0 != id ::
         (k in r.participants <==> k in t.participants) && (k in t.participants ==> r.participants[k] == t.participants[k]))
  {
    var r := CreateUserConversationSpec(t, shown, me, peer, found, md5, now);
    var id := Util.GenerateConversationId(md5, me, peer);
    var rows := DirectParticipants(id, me, peer, now);
    assert r.participants == t.participants[(id, me) := rows[0]][(id, peer) := rows[1]] by {
      PutTwo(t.participants, rows[0], rows[1]);
      assert rows == [rows[0], rows[1]];
    }
    DirectParticipantIds(t.participants, id, me, peer, now);
  }

  /** Creating a direct conversation keeps every table keyed by its rows'
      identifiers. */
  lemma CreateUserConversationKeys(t: Tables, shown: set<string>, me: string, peer: string,
                                   found: Option<string>, md5: Util.Md5, now: string)
    requires KeysMatch(t)
    ensures KeysMatch(CreateUserConversationSpec(t, shown, me, peer, found, md5, now))
  {
    var id := Util.GenerateConversationId(md5, me, peer);
    PutParticipantsKeysMatch(t.participants, DirectParticipants(id, me, peer, now));
  }

  /** `createUserConversation` (lines 35-80); `found` reports the row the
      lookup by user returned. */
  method CreateUserConversation(db: LocalStore, shown: set<string>, me: string, peer: string, md5: Util.Md5, now: string)
    returns (found: Option<string>)
    modifies db
    ensures LookedUp(old(db.conversations), peer, found)
    ensures db.State() == CreateUserConversationSpec(old(db.State()), shown, me, peer, found, md5, now)
  {
    if exists id :: id in db.conversations && IsContactOf(db.conversations, id, peer) {
      var id :| id in db.conversations && IsContactOf(db.conversations, id, peer);
      found := Some(id);
    } else {
      found := None;
    }
    if found.Some? && found.value in shown {
      db.Emit(SetCurrentConversation(found.value));
    } else {
      var id := Util.GenerateConversationId(md5, me, peer);
      db.InsertConversation(DirectConversation(id, peer, now));
      db.InsertParticipants(DirectParticipants(id, me, peer, now));
      db.Emit(SetCurrentConversation(id));
    }
  }

  /** Lines 85-102: the group conversation row built from the response. */
  function GroupConversation(c: Snapshot): Conversation
  {
    Conversation(c.conversationId, c.creatorId, c.category, c.name, c.iconUrl, c.announcement, c.codeUrl, None,
                 c.createdAt, None, None, None, 0, SUCCESS, None, c.muteUntil)
  }

  /** `createGroupConversation` (lines 81-118); `server` gives the `data` of
      the response to the creation request. */
  function CreateGroupConversationSpec(t: Tables, server: (string, seq<string>) -> Option<Snapshot>,
                                       groupName: string, userIds: seq<string>): Tables
  {
    var t1 := t.(calls := t.calls + [Call.CreateGroupConversation(groupName, userIds)]);
    match server(groupName, userIds)
    case None => t1
    case Some(c) =>
      var t2 := t1.(conversations := t1.conversations[c.conversationId := GroupConversation(c)]);
      var t3 := if c.participants.None? then t2
                else t2.(participants := PutParticipants(t2.participants, Online(c.conversationId, c.participants.value)),
                         events := t2.events + [Event.RefreshParticipants(c.conversationId)]);
      t3.(events := t3.events + [SetCurrentConversation(c.conversationId)])
  }

  /** No two entries of the roster name the same user. */
  predicate DistinctIds(rows: seq<ParticipantRow>)
  {
    forall i, j | 0 <= i < j < |rows| :: rows[i].userId != rows[j].userId
  }

  /** Without response data only the creation request is recorded. */
  lemma CreateGroupConversationWithoutData(t: Tables, server: (string, seq<string>) -> Option<Snapshot>,
                                           groupName: string, userIds: seq<string>)
    requires server(groupName, userIds).None?
    ensures var r := CreateGroupConversationSpec(t, server, groupName, userIds);
      SameData(r, t) && r.events == t.events && r.calls == t.calls + [Call.CreateGroupConversation(groupName, userIds)]
  {
  }

  /** With response data the creation request is recorded, the row is stored
      with status SUCCESS, owned by the creator, and becomes current; no
      other conversation row, user, message or job changes, and without a
      roster in the response the participants are untouched. */
  lemma CreateGroupConversationStores(t: Tables, server: (string, seq<string>) -> Option<Snapshot>,
                                      groupName: string, userIds: seq<string>, c: Snapshot)
    requires server(groupName, userIds) == Some(c)
    ensures var r := CreateGroupConversationSpec(t, server, groupName, userIds);
      var id := c.conversationId;
      r.calls == t.calls + [Call.CreateGroupConversation(groupName, userIds)] &&
      r.users == t.users && r.messages == t.messages && r.jobs == t.jobs &&
      r.conversations.Keys == t.conversations.Keys + {id} &&
      r.conversations[id].status == SUCCESS && r.conversations[id].ownerId == c.creatorId &&
      r.conversations[id].category == c.category && r.conversations[id].unseenMessageCount == 0 &&
      r.conversations[id].pinTime == None && r.conversations[id].muteUntil == c.muteUntil &&
      (forall other | other in t.conversations && other != id :: r.conversations[other] == t.conversations[other]) &&
      |r.events| > 0 && r.events[|r.events| - 1] == SetCurrentConversation(id) &&
      (c.participants.None? ==> r.participants == t.participants && r.events == t.events + [SetCurrentConversation(id)])
  {
  }

  /** Storing a roster stores each listed user under the conversation with a
      row made from one of the roster's entries for that user: the entry
      itself when the roster names each user once. */
  lemma RosterRowStored(m: map<ParticipantKey, Participant>, conversationId: string, rows: seq<ParticipantRow>, j: nat)
    requires j < |rows|
    ensures var r := PutParticipants(m, Online(conversationId, rows));
      var k := (conversationId, rows[j].userId);
      k in r && IsListedRow(conversationId, rows, r[k]) &&
      (DistinctIds(rows) ==> r[k] == Participant(conversationId, rows[j].userId, rows[j].role, rows[j].createdAt))
  {
    var online := Online(conversationId, rows);
    var r := PutParticipants(m, online);
    var k := (conversationId, rows[j].userId);
    assert KeyOf(online[j]) == k;
    var i :| 0 <= i < |online| && online[i] == r[k];
    if DistinctIds(rows) && i != j {
      assert false;
    }
  }

  /** Storing a roster adds exactly the listed users to the conversation. */
  lemma RosterIdsStored(m: map<ParticipantKey, Participant>, conversationId: string, rows: seq<ParticipantRow>)
    ensures LocalIds(PutParticipants(m, Online(conversationId, rows)), conversationId) ==
            LocalIds(m, conversationId) + RosterIds(rows)
  {
    var online := Online(conversationId, rows);
    var r := PutParticipants(m, online);
    forall u ensures u in LocalIds(r, conversationId) <==> u in LocalIds(m, conversationId) + RosterIds(rows) {
      LocalIdsMember(r, conversationId, u);
      LocalIdsMember(m, conversationId, u);
      if u in RosterIds(rows) {
        var j :| 0 <= j < |rows| && rows[j].userId == u;
        assert KeyOf(online[j]) == (conversationId, u);
      }
      if HasKey(online, (conversationId, u)) {
        var i :| 0 <= i < |online| && KeyOf(online[i]) == (conversationId, u);
        assert rows[i].userId == u;
      }
    }
  }

  /** Storing a roster leaves other conversations' participants alone. */
  lemma RosterKeepsOthers(m: map<ParticipantKey, Participant>, conversationId: string, rows: seq<ParticipantRow>, k: ParticipantKey)
    requires k.0 != conversationId
    ensures var r := PutParticipants(m, Online(conversationId, rows));
      (k in r <==> k in m) && (k in m ==> r[k] == m[k])
  {
  }

  /** With a roster in the response, exactly the listed users are added to
      the conversation's participants, one entry per user when the roster
      names each once. */
  lemma CreateGroupConversationParticipants(t: Tables, server: (string, seq<string>) -> Option<Snapshot>,
                                            groupName: string, userIds: seq<string>, c: Snapshot, rows: seq<ParticipantRow>)
    requires server(groupName, userIds) == Some(c) && c.participants == Some(rows)
    ensures var m := CreateGroupConversationSpec(t, server, groupName, userIds).participants;
      var id := c.conversationId;
      LocalIds(m, id) == LocalIds(t.participants, id) + RosterIds(rows) &&
      (forall j | 0 <= j < |rows| :: (id, rows[j].userId) in m && IsListedRow(id, rows, m[(id, rows[j].userId)])) &&
      (DistinctIds(rows) ==> forall j | 0 <= j < |rows| ::
         (id, rows[j].userId) in m && m[(id, rows[j].userId)] == Participant(id, rows[j].userId, rows[j].role, rows[j].createdAt))
  {
    var id := c.conversationId;
    var m := PutParticipants(t.participants, Online(id, rows));
    assert CreateGroupConversationSpec(t, server, groupName, userIds).participants == m;
    RosterIdsStored(t.participants, id, rows);
    forall j | 0 <= j < |rows|
      ensures (id, rows[j].userId) in m && IsListedRow(id, rows, m[(id, rows[j].userId)])
      ensures DistinctIds(rows) ==> m[(id, rows[j].userId)] == Participant(id, rows[j].userId, rows[j].role, rows[j].createdAt)
    {
      RosterRowStored(t.participants, id, rows, j);
    }
  }

  /** Other conversations' participants are untouched, and with a roster in
      the response the participant list is refreshed before the conversation
      becomes current. */
  lemma CreateGroupConversationKeepsOthers(t: Tables, server: (string, seq<string>) -> Option<Snapshot>,
                                           groupName: string, userIds: seq<string>, c: Snapshot, rows: seq<ParticipantRow>)
    requires server(groupName, userIds) == Some(c) && c.participants == Some(rows)
    ensures var r := CreateGroupConversationSpec(t, server, groupName, userIds);
      var id := c.conversationId;
      (forall k: ParticipantKey | k.0 != id ::
         (k in r.participants <==> k in t.participants) && (k in t.participants ==> r.participants[k] == t.participants[k])) &&
      r.events == t.events + [Event.RefreshParticipants(id), SetCurrentConversation(id)]
  {
    var id := c.conversationId;
    var m := PutParticipants(t.participants, Online(id, rows));
    assert CreateGroupConversationSpec(t, server, groupName, userIds).participants == m;
    forall k: ParticipantKey | k.0 != id
      ensures (k in m <==> k in t.participants) && (k in t.participants ==> m[k] == t.participants[k])
    {
      RosterKeepsOthers(t.participants, id, rows, k);
    }
  }

  /** Creating a group keeps every table keyed by its rows' identifiers. */
  lemma CreateGroupConversationKeys(t: Tables, server: (string, seq<string>) -> Option<Snapshot>,
                                    groupName: string, userIds: seq<string>)
    requires KeysMatch(t)
    ensures KeysMatch(CreateGroupConversationSpec(t, server, groupName, userIds))
  {
    var response := server(groupName, userIds);
    if response.Some? && response.value.participants.Some? {
      PutParticipantsKeysMatch(t.participants, Online(response.value.conversationId, response.value.participants.value));
    }
  }

  /** `createGroupConversation` (lines 81-118). */
  method CreateGroupConversation(db: LocalStore, server: (string, seq<string>) -> Option<Snapshot>,
                                 groupName: string, userIds: seq<string>)
    modifies db
    ensures db.State() == CreateGroupConversationSpec(old(db.State()), server, groupName, userIds)
  {
    db.Request(Call.CreateGroupConversation(groupName, userIds));
    var response := server(groupName, userIds);
    if response.Some? {
      var c := response.value;
      db.InsertConversation(GroupConversation(c));
      if c.participants.Some? {
        db.InsertParticipants(Online(c.conversationId, c.participants.value));
        db.Emit(Event.RefreshParticipants(c.conversationId));
      }
      db.Emit(SetCurrentConversation(c.conversationId));
    }
  }

  /** The action `markRead` (lines 126-129). */
  method MarkReadAction(db: LocalStore, conversationId: string, uuid: nat -> string, now: string)
    modifies db
    ensures db.State() == MarkReadSpec(old(db.State()), conversationId, uuid, now).(events := old(db.events) + [RefreshConversations])
  {
    MarkRead(db, conversationId, uuid, now);
    db.Emit(RefreshConversations);
  }

  /** The truthiness of a nullable string in JavaScript: set and not empty. */
  predicate Truthy(s: Option<string>)
  {
    s.Some? && s.value != ""
  }

  /** `pinTop` (lines 134-140): `pinTime` is the pin time the caller shows;
      a pinned conversation is unpinned and any other pinned at `now`. */
  function PinTopSpec(t: Tables, conversationId: string, pinTime: Option<string>, now: string): (r: Tables)
    requires now != ""
    ensures r.conversations.Keys == t.conversations.Keys
    ensures conversationId in t.conversations ==>
      Truthy(r.conversations[conversationId].pinTime) == !Truthy(pinTime) &&
      r.conversations[conversationId].(pinTime := t.conversations[conversationId].pinTime) == t.conversations[conversationId]
    ensures conversationId in t.conversations ==>
      r.conversations[conversationId].pinTime == if Truthy(pinTime) then None else Some(now)
    ensures forall id | id in t.conversations && id != conversationId :: r.conversations[id] == t.conversations[id]
    ensures r.participants == t.participants && r.users == t.users && r.messages == t.messages && r.jobs == t.jobs
    ensures r.calls == t.calls && r.events == t.events + [RefreshConversations]
  {
    t.(conversations := SetPinTime(t.conversations, conversationId, if Truthy(pinTime) then None else Some(now)),
       events := t.events + [RefreshConversations])
  }

  /** Pinning an unpinned conversation and then unpinning it with the pin
      time it now shows restores every conversation row. */
  lemma PinTopThenUnpin(t: Tables, conversationId: string, now: string, later: string)
    requires conversationId in t.conversations && t.conversations[conversationId].pinTime == None
    requires now != "" && later != ""
    ensures var pinned := PinTopSpec(t, conversationId, None, now);
      pinned.conversations[conversationId].pinTime == Some(now) &&
      PinTopSpec(pinned, conversationId, Some(now), later).conversations == t.conversations
  {
    var pinned := PinTopSpec(t, conversationId, None, now);
    var back := PinTopSpec(pinned, conversationId, Some(now), later);
    assert back.conversations[conversationId] == t.conversations[conversationId];
  }

  /** The pin toggle keeps every table keyed by its rows' identifiers. */
  lemma PinTopKeys(t: Tables, conversationId: string, pinTime: Option<string>, now: string)
    requires KeysMatch(t) && now != ""
    ensures KeysMatch(PinTopSpec(t, conversationId, pinTime, now))
  {
  }

  /** `pinTop` (lines 134-140). */
  method PinTop(db: LocalStore, conversationId: string, pinTime: Option<string>, now: string)
    requires now != ""
    modifies db
    ensures db.State() == PinTopSpec(old(db.State()), conversationId, pinTime, now)
  {
    db.UpdatePinTime(conversationId, if Truthy(pinTime) then None else Some(now));
    db.Emit(RefreshConversations);
  }

  /** `conversationClear` (lines 130-133): the conversation row, and only it,
      is deleted. */
  function ConversationClearSpec(t: Tables, conversationId: string): (r: Tables)
    ensures conversationId !in r.conversations
    ensures forall id :: id in r.conversations <==> id in t.conversations && id != conversationId
    ensures forall id | id in r.conversations :: r.conversations[id] == t.conversations[id]
    ensures r.participants == t.participants && r.users == t.users && r.messages == t.messages && r.jobs == t.jobs
    ensures r.calls == t.calls && r.events == t.events + [Event.ConversationClear(conversationId)]
  {
    t.(conversations := t.conversations - {conversationId}, events := t.events + [Event.ConversationClear(conversationId)])
  }

  lemma ConversationClearKeys(t: Tables, conversationId: string)
    requires KeysMatch(t)
    ensures KeysMatch(ConversationClearSpec(t, conversationId))
  {
  }

  method ConversationClear(db: LocalStore, conversationId: string)
    modifies db
    ensures db.State() == ConversationClearSpec(old(db.State()), conversationId)
  {
    db.DeleteConversation(conversationId);
    db.Emit(Event.ConversationClear(conversationId));
  }

  /** `sendMessage` (lines 141-145): the conversation is marked read, then
      the message is stored; `message` is the row `insertTextMessage` makes
      of the payload. */
  function SendMessageSpec(t: Tables, message: Message, uuid: nat -> string, now: string): Tables
  {
    var t1 := MarkReadSpec(t, message.conversationId, uuid, now);
    t1.(messages := t1.messages + [message], events := t1.events + [RefreshMessage(message.conversationId)])
  }

  /** After sending, the earlier messages of the conversation are read; the
      only unread message left in it is the new one, if it is itself
      unread. */
  lemma SendMessageLeavesOnlyNew(t: Tables, message: Message, uuid: nat -> string, now: string)
    ensures var r := SendMessageSpec(t, message, uuid, now);
      var id := message.conversationId;
      |r.messages| == |t.messages| + 1 && r.messages[|t.messages|] == message &&
      Unread(r.messages, id) == (if IsUnread(message, id) then [message] else []) &&
      r.jobs == MarkReadSpec(t, id, uuid, now).jobs &&
      r.events == t.events + [RefreshMessage(id)]
  {
    var id := message.conversationId;
    var read := MarkMessagesRead(t.messages, id);
    NothingUnread(read, id);
    var all := read + [message];
    assert all[..|read|] == read;
  }

  lemma SendMessageKeys(t: Tables, message: Message, uuid: nat -> string, now: string)
    requires KeysMatch(t)
    ensures KeysMatch(SendMessageSpec(t, message, uuid, now))
  {
  }

  method SendMessage(db: LocalStore, message: Message, uuid: nat -> string, now: string)
    modifies db
    ensures db.State() == SendMessageSpec(old(db.State()), message, uuid, now)
  {
    MarkRead(db, message.conversationId, uuid, now);
    db.InsertMessage(message);
    db.Emit(RefreshMessage(message.conversationId));
  }
}
