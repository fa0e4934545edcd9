/**
  The local database the sync core reads and writes: the conversation,
  participant, user, message and job tables, plus two logs that record what
  the core asks of the outside world (the store commits and dispatches it
  issues, and the server calls it makes). The data-access objects of the
  client (`conversationDao`, `participantDao`, `userDao`, `messageDao`,
  `jobDao`) are not part of this model; their effect is stated here as the
  table updates they perform.
*/
module Store {
  import opened Base

  datatype ConversationStatus = START | SUCCESS | QUIT
  datatype ConversationCategory = CONTACT | GROUP
  datatype MessageStatus = SENDING | SENT | DELIVERED | READ

  /** A row of the conversation table; nullable columns are `Option`s. */
  datatype Conversation = Conversation(
    conversationId: string,
    ownerId: string,
    category: Option<ConversationCategory>,
    name: Option<string>,
    iconUrl: Option<string>,
    announcement: Option<string>,
    codeUrl: Option<string>,
    payType: Option<string>,
    createdAt: string,
    pinTime: Option<string>,
    lastMessageId: Option<string>,
    lastReadMessageId: Option<string>,
    unseenMessageCount: nat,
    status: ConversationStatus,
    draft: Option<string>,
    muteUntil: Option<string>)

  /** A row of the participant table, keyed by conversation and user. */
  datatype Participant = Participant(conversationId: string, userId: string, role: string, createdAt: string)

  type ParticipantKey = (string, string)

  function KeyOf(p: Participant): ParticipantKey
  {
    (p.conversationId, p.userId)
  }

  datatype User = User(userId: string, fullName: Option<string>, avatarUrl: Option<string>)

  datatype Message = Message(messageId: string, conversationId: string, userId: string, content: string,
                             status: MessageStatus, createdAt: string)

  /** The status update a job carries to the server (kept structured rather
      than as the JSON text the client stores). */
  datatype BlazeMessage = BlazeMessage(messageId: string, status: MessageStatus)

  /** A row of the outbox (job) table. */
  datatype Job = Job(
    jobId: string,
    action: string,
    createdAt: string,
    orderId: Option<string>,
    priority: nat,
    userId: Option<string>,
    blazeMessage: BlazeMessage,
    conversationId: Option<string>,
    resendMessageId: Option<string>,
    runCount: nat)

  /** A store commit or dispatch issued by the core. */
  datatype Event =
    | SetCurrentConversation(conversationId: string)
    | RefreshParticipants(conversationId: string)
    | RefreshConversations
    | ConversationClear(conversationId: string)
    | RefreshMessage(conversationId: string)

  /** A request sent to the server. */
  datatype Call =
    | GetConversation(conversationId: string)
    | GetUsers(userIds: seq<string>)
    | GetUserById(userId: string)
    | CreateGroupConversation(groupName: string, userIds: seq<string>)

  /** A participant as the server lists it. */
  datatype ParticipantRow = ParticipantRow(userId: string, role: string, createdAt: string)

  /** A conversation as the server sends it; the participant list may be
      missing from the response. */
  datatype Snapshot = Snapshot(
    conversationId: string,
    creatorId: string,
    category: Option<ConversationCategory>,
    name: Option<string>,
    iconUrl: Option<string>,
    announcement: Option<string>,
    codeUrl: Option<string>,
    createdAt: string,
    muteUntil: Option<string>,
    participants: Option<seq<ParticipantRow>>)

  /** The whole local state as one value. */
  datatype Tables = Tables(
    conversations: map<string, Conversation>,
    participants: map<ParticipantKey, Participant>,
    users: map<string, User>,
    messages: seq<Message>,
    jobs: seq<Job>,
    events: seq<Event>,
    calls: seq<Call>)

  /** Every table is keyed by the row's own identifier. */
  predicate KeysMatch(t: Tables)
  {
    (forall id | id in t.conversations :: t.conversations[id].conversationId == id) &&
    (forall k | k in t.participants :: KeyOf(t.participants[k]) == k) &&
    (forall id | id in t.users :: t.users[id].userId == id)
  }

  /** The same state apart from the two logs. */
  predicate SameData(t: Tables, u: Tables)
  {
    t.conversations == u.conversations && t.participants == u.participants &&
    t.users == u.users && t.messages == u.messages && t.jobs == u.jobs
  }

  /** Some row of `rows` has key `k`. */
  predicate HasKey(rows: seq<Participant>, k: ParticipantKey)
  {
    exists i :: 0 <= i < |rows| && KeyOf(rows[i]) == k
  }

  /** `participantDao.insertAll`: every row is stored under its key, a later
      row replacing an earlier one with the same key; other keys keep their
      rows. */
  function PutParticipants(m: map<ParticipantKey, Participant>, rows: seq<Participant>): (r: map<ParticipantKey, Participant>)
    ensures forall k :: k in r <==> k in m || HasKey(rows, k)
    ensures forall k | k in m && !HasKey(rows, k) :: r[k] == m[k]
    ensures forall k | k in r && HasKey(rows, k) :: r[k] in rows && KeyOf(r[k]) == k
    decreases |rows|
  {
    if |rows| == 0 then m
    else
      var n := |rows| - 1;
      var prev := PutParticipants(m, rows[..n]);
      assert forall k :: HasKey(rows, k) <==> HasKey(rows[..n], k) || k == KeyOf(rows[n]) by {
        forall k | HasKey(rows, k) ensures HasKey(rows[..n], k) || k == KeyOf(rows[n]) {
          var i :| 0 <= i < |rows| && KeyOf(rows[i]) == k;
          if i < n { assert rows[..n][i] == rows[i]; }
        }
        forall k | HasKey(rows[..n], k) ensures HasKey(rows, k) {
          var i :| 0 <= i < n && KeyOf(rows[..n][i]) == k;
          assert rows[i] == rows[..n][i];
        }
      }
      assert forall p | p in rows[..n] :: p in rows;
      prev[KeyOf(rows[n]) := rows[n]]
  }

  /** No later row of `rows` has the key of row `i`. */
  predicate LastOfKey(rows: seq<Participant>, i: int)
    requires 0 <= i < |rows|
  {
    forall j :: i < j < |rows| ==> KeyOf(rows[j]) != KeyOf(rows[i])
  }

  /** The last row with a given key is the one stored under that key. */
  lemma {:induction false} PutParticipantsKeepsLast(m: map<ParticipantKey, Participant>, rows: seq<Participant>, i: int)
    requires 0 <= i < |rows| && LastOfKey(rows, i)
    ensures KeyOf(rows[i]) in PutParticipants(m, rows) && PutParticipants(m, rows)[KeyOf(rows[i])] == rows[i]
    decreases |rows|
  {
    var n := |rows| - 1;
    var init := rows[..n];
    if i < n {
      assert init[i] == rows[i];
      assert LastOfKey(init, i) by {
        forall j | i < j < n ensures KeyOf(init[j]) != KeyOf(init[i]) {
          assert init[j] == rows[j];
        }
      }
      PutParticipantsKeepsLast(m, init, i);
    }
  }

  /** Storing rows keeps the participant table keyed by its rows' keys. */
  lemma PutParticipantsKeysMatch(m: map<ParticipantKey, Participant>, rows: seq<Participant>)
    requires forall k | k in m :: KeyOf(m[k]) == k
    ensures var r := PutParticipants(m, rows); forall k | k in r :: KeyOf(r[k]) == k
  {
    var r := PutParticipants(m, rows);
    forall k | k in r ensures KeyOf(r[k]) == k {
      if HasKey(rows, k) {
      }
    }
  }

  /** Storing two rows is two single updates, the second one last. */
  lemma PutTwo(m: map<ParticipantKey, Participant>, a: Participant, b: Participant)
    ensures PutParticipants(m, [a, b]) == m[KeyOf(a) := a][KeyOf(b) := b]
  {
    assert [a, b][..1] == [a];
    assert [a][..0] == [];
  }

  /** `participantDao.deleteAll(conversationId, userIds)`. */
  function DropParticipants(m: map<ParticipantKey, Participant>, conversationId: string, userIds: set<string>): (r: map<ParticipantKey, Participant>)
    ensures forall k :: k in r <==> k in m && !(k.0 == conversationId && k.1 in userIds)
    ensures forall k | k in r :: r[k] == m[k]
  {
    map k | k in m && !(k.0 == conversationId && k.1 in userIds) :: m[k]
  }

  /** The user ids stored as participants of a conversation
      (`participantDao.getParticipants` followed by `map(item => item.user_id)`). */
  function LocalIds(m: map<ParticipantKey, Participant>, conversationId: string): set<string>
  {
    set k | k in m && k.0 == conversationId :: k.1
  }

  /** A user is a stored participant exactly when its key is in the table. */
  lemma LocalIdsMember(m: map<ParticipantKey, Participant>, conversationId: string, id: string)
    ensures id in LocalIds(m, conversationId) <==> (conversationId, id) in m
  {
    if (conversationId, id) in m {
      var k := (conversationId, id);
      assert k.1 == id;
    }
  }

  /** A roster as participant rows of the conversation (lines 83-90 of
      src/workers/base_worker.js, lines 105-112 of src/store/actions.js). */
  function Online(conversationId: string, rows: seq<ParticipantRow>): (r: seq<Participant>)
    ensures |r| == |rows|
    ensures forall i :: 0 <= i < |rows| ==> r[i] == Participant(conversationId, rows[i].userId, rows[i].role, rows[i].createdAt)
  {
    seq(|rows|, i requires 0 <= i < |rows| => Participant(conversationId, rows[i].userId, rows[i].role, rows[i].createdAt))
  }

  /** The user ids of a roster. */
  function RosterIds(rows: seq<ParticipantRow>): set<string>
  {
    set i | 0 <= i < |rows| :: rows[i].userId
  }

  /** `p` is the participant row made from one of the roster's entries. */
  predicate IsListedRow(conversationId: string, rows: seq<ParticipantRow>, p: Participant)
  {
    exists w :: 0 <= w < |rows| && p == Participant(conversationId, rows[w].userId, rows[w].role, rows[w].createdAt)
  }

  /** Some user of `users` has id `id`. */
  predicate HasUser(users: seq<User>, id: string)
  {
    exists i :: 0 <= i < |users| && users[i].userId == id
  }

  /** No later user of `users` has the id of user `i`. */
  predicate LastOfId(users: seq<User>, i: int)
    requires 0 <= i < |users|
  {
    forall j :: i < j < |users| ==> users[j].userId != users[i].userId
  }

  /** `userDao.insertUsers`: every user is stored under its own id, a later
      one replacing an earlier one; other ids keep their rows. */
  function PutUsers(m: map<string, User>, users: seq<User>): (r: map<string, User>)
    ensures forall id :: id in r <==> id in m || HasUser(users, id)
    ensures forall id | id in m && !HasUser(users, id) :: r[id] == m[id]
    decreases |users|
  {
    if |users| == 0 then m
    else
      var n := |users| - 1;
      var init, last := users[..n], users[n];
      var rest := PutUsers(m, init);
      assert forall id :: HasUser(users, id) <==> HasUser(init, id) || id == last.userId by {
        forall id | HasUser(users, id) ensures HasUser(init, id) || id == last.userId {
          var i :| 0 <= i < |users| && users[i].userId == id;
          if i < n { assert init[i] == users[i]; }
        }
        forall id | HasUser(init, id) ensures HasUser(users, id) {
          var i :| 0 <= i < n && init[i].userId == id;
          assert users[i] == init[i];
        }
      }
      rest[last.userId := last]
  }

  /** The last user the server sent with a given id is the row stored under
      that id. */
  lemma {:induction false} PutUsersKeepsLast(m: map<string, User>, users: seq<User>, i: int)
    requires 0 <= i < |users| && LastOfId(users, i)
    ensures users[i].userId in PutUsers(m, users) && PutUsers(m, users)[users[i].userId] == users[i]
    decreases |users|
  {
    var n := |users| - 1;
    var init := users[..n];
    if i < n {
      assert init[i] == users[i];
      assert LastOfId(init, i) by {
        forall j | i < j < n ensures init[j].userId != init[i].userId {
          assert init[j] == users[j];
        }
      }
      PutUsersKeepsLast(m, init, i);
    }
  }

  /** Every id that occurs in `users` has a last occurrence at or after any
      given one. */
  lemma {:induction false} LastOccurrence(users: seq<User>, i: int) returns (k: int)
    requires 0 <= i < |users|
    ensures i <= k < |users| && users[k].userId == users[i].userId && LastOfId(users, k)
    decreases |users| - i
  {
    if LastOfId(users, i) {
      k := i;
    } else {
      var j :| i < j < |users| && users[j].userId == users[i].userId;
      k := LastOccurrence(users, j);
    }
  }

  /** The row `insertUsers` stores under a listed id is the last user the
      server sent with that id. */
  lemma PutUsersStoresSent(m: map<string, User>, users: seq<User>, id: string)
    requires HasUser(users, id)
    ensures id in PutUsers(m, users)
    ensures exists k :: 0 <= k < |users| && LastOfId(users, k) && users[k].userId == id && PutUsers(m, users)[id] == users[k]
    ensures PutUsers(m, users)[id] in users && PutUsers(m, users)[id].userId == id
  {
    var i :| 0 <= i < |users| && users[i].userId == id;
    var k := LastOccurrence(users, i);
    PutUsersKeepsLast(m, users, k);
  }

  /** The columns `conversationDao.updateConversation` rewrites. */
  datatype ConversationUpdate = ConversationUpdate(
    conversationId: string,
    ownerId: string,
    category: Option<ConversationCategory>,
    name: Option<string>,
    announcement: Option<string>,
    createdAt: string,
    status: ConversationStatus,
    muteUntil: Option<string>)

  /** `conversationDao.updateConversation`: the row with that id gets the new
      columns; without such a row nothing is written. */
  function ApplyUpdate(m: map<string, Conversation>, u: ConversationUpdate): (r: map<string, Conversation>)
    ensures r.Keys == m.Keys
    ensures forall id | id in m && id != u.conversationId :: r[id] == m[id]
  {
    if u.conversationId in m then
      m[u.conversationId := m[u.conversationId].(ownerId := u.ownerId, category := u.category, name := u.name,
                                                 announcement := u.announcement, createdAt := u.createdAt,
                                                 status := u.status, muteUntil := u.muteUntil)]
    else m
  }

  /** `conversationDao.updateConversationPinTimeById`. */
  function SetPinTime(m: map<string, Conversation>, conversationId: string, pinTime: Option<string>): (r: map<string, Conversation>)
    ensures r.Keys == m.Keys
    ensures forall id | id in m && id != conversationId :: r[id] == m[id]
  {
    if conversationId in m then m[conversationId := m[conversationId].(pinTime := pinTime)] else m
  }

  /** A message of the conversation that was delivered and not yet read. */
  predicate IsUnread(m: Message, conversationId: string)
  {
    m.conversationId == conversationId && m.status == DELIVERED
  }

  /** `messageDao.findUnreadMessage`: the unread messages of the conversation,
      in table order. */
  function Unread(messages: seq<Message>, conversationId: string): (r: seq<Message>)
    ensures |r| <= |messages|
    ensures forall m :: m in r <==> m in messages && IsUnread(m, conversationId)
    decreases |messages|
  {
    if |messages| == 0 then []
    else
      var n := |messages| - 1;
      assert messages == messages[..n] + [messages[n]];
      Unread(messages[..n], conversationId) + if IsUnread(messages[n], conversationId) then [messages[n]] else []
  }

  /** `Unread` keeps table order: the unread messages of two runs of rows are
      those of the first, then those of the second. */
  lemma {:induction false} UnreadAppend(a: seq<Message>, b: seq<Message>, conversationId: string)
    ensures Unread(a + b, conversationId) == Unread(a, conversationId) + Unread(b, conversationId)
    decreases |b|
  {
    if |b| == 0 {
      assert a + b == a;
    } else {
      var n := |b| - 1;
      assert (a + b)[..|a + b| - 1] == a + b[..n];
      assert (a + b)[|a + b| - 1] == b[n];
      UnreadAppend(a, b[..n], conversationId);
    }
  }

  /** A single row is found exactly when it is unread, once. */
  lemma UnreadSingle(m: Message, conversationId: string)
    ensures Unread([m], conversationId) == if IsUnread(m, conversationId) then [m] else []
  {
    assert [m][..0] == [];
  }

  /** `messageDao.markRead`: the conversation's unread messages become READ. */
  function MarkMessagesRead(messages: seq<Message>, conversationId: string): (r: seq<Message>)
    ensures |r| == |messages|
    ensures forall i :: 0 <= i < |messages| ==>
      !IsUnread(r[i], conversationId) && r[i].(status := messages[i].status) == messages[i]
    ensures forall i | 0 <= i < |messages| && !IsUnread(messages[i], conversationId) :: r[i] == messages[i]
    ensures forall i | 0 <= i < |messages| && IsUnread(messages[i], conversationId) :: r[i] == messages[i].(status := READ)
  {
    seq(|messages|, i requires 0 <= i < |messages| =>
      if IsUnread(messages[i], conversationId) then messages[i].(status := READ) else messages[i])
  }

  /** Once no message of the conversation is unread, none is found and
      marking it read changes nothing. */
  lemma NothingUnread(messages: seq<Message>, conversationId: string)
    requires forall i :: 0 <= i < |messages| ==> !IsUnread(messages[i], conversationId)
    ensures Unread(messages, conversationId) == []
    ensures MarkMessagesRead(messages, conversationId) == messages
  {
  }

  /** The tables as fields that the core's operations reassign. */
  class LocalStore {
    var conversations: map<string, Conversation>
    var participants: map<ParticipantKey, Participant>
    var users: map<string, User>
    var messages: seq<Message>
    var jobs: seq<Job>
    var events: seq<Event>
    var calls: seq<Call>

    function State(): Tables
      reads this
    {
      Tables(conversations, participants, users, messages, jobs, events, calls)
    }

    constructor (initial: Tables)
      ensures State() == initial
    {
      conversations := initial.conversations;
      participants := initial.participants;
      users := initial.users;
      messages := initial.messages;
      jobs := initial.jobs;
      events := initial.events;
      calls := initial.calls;
    }

    /** `conversationDao.insertConversation`: stored under its id, replacing any row there. */
    method InsertConversation(c: Conversation)
      modifies this
      ensures State() == old(State()).(conversations := old(conversations)[c.conversationId := c])
    {
      conversations := conversations[c.conversationId := c];
    }

    method InsertParticipants(rows: seq<Participant>)
      modifies this
      ensures State() == old(State()).(participants := PutParticipants(old(participants), rows))
    {
      var i := 0;
      while i < |rows|
        invariant i <= |rows|
        invariant State() == old(State()).(participants := PutParticipants(old(participants), rows[..i]))
      {
        assert rows[..i + 1][..i] == rows[..i];
        participants := participants[KeyOf(rows[i]) := rows[i]];
        i := i + 1;
      }
      assert rows[..i] == rows;
    }

    method DeleteParticipants(conversationId: string, userIds: set<string>)
      modifies this
      ensures State() == old(State()).(participants := DropParticipants(old(participants), conversationId, userIds))
    {
      participants := DropParticipants(participants, conversationId, userIds);
    }

    /** `userDao.insertUser`: stored under its own id, replacing any row there. */
    method InsertUser(u: User)
      modifies this
      ensures State() == old(State()).(users := old(users)[u.userId := u])
    {
      users := users[u.userId := u];
    }

    method InsertUsers(us: seq<User>)
      modifies this
      ensures State() == old(State()).(users := PutUsers(old(users), us))
    {
      var i := 0;
      while i < |us|
        invariant i <= |us|
        invariant State() == old(State()).(users := PutUsers(old(users), us[..i]))
      {
        assert us[..i + 1][..i] == us[..i];
        users := users[us[i].userId := us[i]];
        i := i + 1;
      }
      assert us[..i] == us;
    }

    /** `jobDao.insert`: the job is queued after every earlier one. */
    method InsertJob(j: Job)
      modifies this
      ensures State() == old(State()).(jobs := old(jobs) + [j])
    {
      jobs := jobs + [j];
    }

    method UpdateConversation(u: ConversationUpdate)
      modifies this
      ensures State() == old(State()).(conversations := ApplyUpdate(old(conversations), u))
    {
      conversations := ApplyUpdate(conversations, u);
    }

    method UpdatePinTime(conversationId: string, pinTime: Option<string>)
      modifies this
      ensures State() == old(State()).(conversations := SetPinTime(old(conversations), conversationId, pinTime))
    {
      conversations := SetPinTime(conversations, conversationId, pinTime);
    }

    /** `conversationDao.deleteConversation`. */
    method DeleteConversation(conversationId: string)
      modifies this
      ensures State() == old(State()).(conversations := old(conversations) - {conversationId})
    {
      conversations := conversations - {conversationId};
    }

    method FindUnread(conversationId: string) returns (r: seq<Message>)
      ensures r == Unread(messages, conversationId)
    {
      r := Unread(messages, conversationId);
    }

    method MarkRead(conversationId: string)
      modifies this
      ensures State() == old(State()).(messages := MarkMessagesRead(old(messages), conversationId))
    {
      messages := MarkMessagesRead(messages, conversationId);
    }

    /** `messageDao.insertTextMessage`: the message is stored after every earlier one. */
    method InsertMessage(m: Message)
      modifies this
      ensures State() == old(State()).(messages := old(messages) + [m])
    {
      messages := messages + [m];
    }

    method Emit(e: Event)
      modifies this
      ensures State() == old(State()).(events := old(events) + [e])
    {
      events := events + [e];
    }

    method Request(c: Call)
      modifies this
      ensures State() == old(State()).(calls := old(calls) + [c])
    {
      calls := calls + [c];
    }
  }
}
