/**
  `BaseWorker` of src/workers/base_worker.js: merging the server's view of a
  conversation into the local tables. A conversation reference from the
  server is turned into a local row in START; a refresh fetches the
  conversation, derives its lifecycle status (SUCCESS when the signed-in
  account is listed, QUIT otherwise) and owner, and reconciles the local
  participant rows with the server's roster by a set difference; users are
  fetched when they are not cached.

  The server is given as its answers (`Remote`); every request made is
  appended to the store's call log. The signed-in account is the worker's
  `account`.
*/
module Workers {
  import opened Base
  import opened Store

  /** The server's answers: `data` of the response to each request, `None`
      when the response carries none. */
  datatype Remote = Remote(
    conversation: string -> Option<Snapshot>,
    users: seq<string> -> Option<seq<User>>,
    user: string -> Option<User>)

  /** The remote event `syncConversation` is called with. */
  datatype SyncData = SyncData(conversationId: string, userId: string)

  /** The tables after a refresh, and whether it ran to its end (`false`
      when it threw). */
  datatype Run = Run(tables: Tables, completed: bool)

  /** Lines 50-52: the account is listed among the participants. */
  predicate IsMember(rows: seq<ParticipantRow>, me: string)
  {
    exists i :: 0 <= i < |rows| && rows[i].userId == me
  }

  /** Lines 57-61: the last participant, in list order, other than the
      account; `fallback` when there is none. */
  function LastOther(rows: seq<ParticipantRow>, me: string, fallback: string): string
    decreases |rows|
  {
    if |rows| == 0 then fallback
    else if rows[|rows| - 1].userId != me then rows[|rows| - 1].userId
    else LastOther(rows[..|rows| - 1], me, fallback)
  }

  /** Lines 55-62: a contact conversation is owned by the other party, any
      other by its creator. */
  function OwnerOf(c: Snapshot, rows: seq<ParticipantRow>, me: string): string
  {
    if c.category == Some(CONTACT) then LastOther(rows, me, c.creatorId) else c.creatorId
  }

  /** Lines 63-72: the columns a refresh writes. */
  function RefreshUpdate(c: Snapshot, ownerId: string, status: ConversationStatus): ConversationUpdate
  {
    ConversationUpdate(c.conversationId, ownerId, c.category, c.name, c.announcement, c.createdAt, status, c.muteUntil)
  }

  /** Lines 92-96: the online rows whose user is not stored locally, in
      their order. */
  function Added(online: seq<Participant>, local: set<string>): (r: seq<Participant>)
    ensures |r| <= |online|
    ensures forall p :: p in r <==> p in online && p.userId !in local
    decreases |online|
  {
    if |online| == 0 then []
    else
      var n := |online| - 1;
      assert online == online[..n] + [online[n]];
      Added(online[..n], local) + if online[n].userId in local then [] else [online[n]]
  }

  /** `Added` keeps the roster's order: the added rows of two runs of entries
      are those of the first, then those of the second. */
  lemma {:induction false} AddedAppend(a: seq<Participant>, b: seq<Participant>, local: set<string>)
    ensures Added(a + b, local) == Added(a, local) + Added(b, local)
    decreases |b|
  {
    if |b| == 0 {
      assert a + b == a;
    } else {
      var n := |b| - 1;
      assert (a + b)[..|a + b| - 1] == a + b[..n];
      assert (a + b)[|a + b| - 1] == b[n];
      AddedAppend(a, b[..n], local);
    }
  }

  /** A single entry is added exactly when its user is not stored, once. */
  lemma AddedSingle(p: Participant, local: set<string>)
    ensures Added([p], local) == if p.userId in local then [] else [p]
  {
    assert [p][..0] == [];
  }

  /** Lines 97-101: the local ids no online row carries. */
  function Removed(local: set<string>, online: seq<Participant>): set<string>
  {
    set id | id in local && forall i :: 0 <= i < |online| ==> online[i].userId != id
  }

  /** Lines 104-106. */
  function UserIdsOf(ps: seq<Participant>): (r: seq<string>)
    ensures |r| == |ps|
    ensures forall i :: 0 <= i < |ps| ==> r[i] == ps[i].userId
  {
    seq(|ps|, i requires 0 <= i < |ps| => ps[i].userId)
  }

  /** Lines 118-123: the users are requested, and stored when the response
      carries them. */
  function FetchUsersSpec(t: Tables, remote: Remote, userIds: seq<string>): Tables
  {
    var t1 := t.(calls := t.calls + [GetUsers(userIds)]);
    match remote.users(userIds)
    case None => t1
    case Some(us) => t1.(users := PutUsers(t1.users, us))
  }

  /** Lines 125-136: the cached user, or the one the server sends (stored). */
  function SyncUserSpec(t: Tables, remote: Remote, userId: string): (Tables, Option<User>)
  {
    if userId in t.users then (t, Some(t.users[userId]))
    else
      var t1 := t.(calls := t.calls + [GetUserById(userId)]);
      match remote.user(userId)
      case None => (t1, None)
      case Some(u) => (t1.(users := t1.users[u.userId := u]), Some(u))
  }

  /** Lines 77-116: added rows are inserted and their users fetched, removed
      ids are deleted, and a change is announced. */
  function RefreshParticipantsSpec(t: Tables, remote: Remote, conversationId: string, rows: seq<ParticipantRow>): Tables
  {
    var local := LocalIds(t.participants, conversationId);
    var online := Online(conversationId, rows);
    var add := Added(online, local);
    var remove := Removed(local, online);
    var t1 := if |add| > 0 then FetchUsersSpec(t.(participants := PutParticipants(t.participants, add)), remote, UserIdsOf(add)) else t;
    var t2 := if remove != {} then t1.(participants := DropParticipants(t1.participants, conversationId, remove)) else t1;
    if |add| > 0 || remove != {} then t2.(events := t2.events + [RefreshParticipants(conversationId)]) else t2
  }

  /** Lines 45-76. A response without participants makes line 50 throw
      before anything is written. */
  function RefreshConversationSpec(t: Tables, me: string, remote: Remote, conversationId: string): Run
  {
    var t1 := t.(calls := t.calls + [GetConversation(conversationId)]);
    match remote.conversation(conversationId)
    case None => Run(t1, true)
    case Some(c) =>
      match c.participants
      case None => Run(t1, false)
      case Some(rows) =>
        var status := if IsMember(rows, me) then SUCCESS else QUIT;
        var owner := OwnerOf(c, rows, me);
        var t2 := t1.(conversations := ApplyUpdate(t1.conversations, RefreshUpdate(c, owner, status)));
        var t3 := RefreshParticipantsSpec(t2, remote, c.conversationId, rows);
        Run(SyncUserSpec(t3, remote, owner).0, true)
  }

  /** Lines 19-36: the row created for a conversation first heard of. */
  function NewConversation(data: SyncData, now: string): Conversation
  {
    Conversation(data.conversationId, data.userId, None, None, None, Some(""), Some(""), Some(""), now,
                 None, None, None, 0, START, None, None)
  }

  /** Lines 13-43. */
  function SyncConversationSpec(t: Tables, me: string, remote: Remote, data: SyncData, now: string): Run
  {
    var id := data.conversationId;
    if id == me then Run(t, true)
    else if id !in t.conversations then
      var t1 := t.(conversations := t.conversations[id := NewConversation(data, now)]);
      var first := RefreshConversationSpec(t1, me, remote, id);
      if !first.completed then first
      else RefreshConversationSpec(first.tables, me, remote, id)
    else if t.conversations[id].status == START then RefreshConversationSpec(t, me, remote, id)
    else Run(t, true)
  }

  /** The conversations requested from the server, in order. */
  function Fetches(calls: seq<Call>): seq<string>
    decreases |calls|
  {
    if |calls| == 0 then []
    else
      var n := |calls| - 1;
      Fetches(calls[..n]) + if calls[n].GetConversation? then [calls[n].conversationId] else []
  }

  // ---------------------------------------------------------------------
  // Properties

  /** The owner chosen by the loop at lines 57-61: the fallback exactly when
      every participant is the account, otherwise a participant other than
      the account after whom only the account is listed. */
  lemma {:induction false} LastOtherIsLastOther(rows: seq<ParticipantRow>, me: string, fallback: string)
    ensures (forall i :: 0 <= i < |rows| ==> rows[i].userId == me) ==> LastOther(rows, me, fallback) == fallback
    ensures (exists i :: 0 <= i < |rows| && rows[i].userId != me) ==>
      exists i :: 0 <= i < |rows| && rows[i].userId == LastOther(rows, me, fallback) && rows[i].userId != me &&
        forall j :: i < j < |rows| ==> rows[j].userId == me
    decreases |rows|
  {
    if |rows| > 0 {
      var n := |rows| - 1;
      var front := rows[..n];
      LastOtherIsLastOther(front, me, fallback);
      if rows[n].userId == me {
        assert LastOther(rows, me, fallback) == LastOther(front, me, fallback);
        if exists i :: 0 <= i < |rows| && rows[i].userId != me {
          var i :| 0 <= i < |rows| && rows[i].userId != me;
          assert front[i].userId != me;
          var w :| 0 <= w < |front| && front[w].userId == LastOther(front, me, fallback) && front[w].userId != me &&
                   forall j :: w < j < |front| ==> front[j].userId == me;
          assert rows[w] == front[w];
          forall j | w < j < |rows|
            ensures rows[j].userId == me
          {
            if j < n {
              assert rows[j] == front[j];
            }
          }
        } else {
          forall i | 0 <= i < n
            ensures front[i].userId == me
          {
            assert front[i] == rows[i];
          }
        }
      }
    }
  }

  lemma {:induction false} FetchesAppend(a: seq<Call>, b: seq<Call>)
    ensures Fetches(a + b) == Fetches(a) + Fetches(b)
    decreases |b|
  {
    if |b| == 0 {
      assert a + b == a;
    } else {
      var n := |b| - 1;
      assert (a + b)[..|a| + n] == a + b[..n];
      assert (a + b)[|a| + n] == b[n];
      FetchesAppend(a, b[..n]);
    }
  }

  /** Fetching users asks for exactly the given ids and touches only the
      user table and the call log. */
  lemma FetchUsersEffect(t: Tables, remote: Remote, userIds: seq<string>)
    ensures var r := FetchUsersSpec(t, remote, userIds);
      r.conversations == t.conversations && r.participants == t.participants &&
      r.messages == t.messages && r.jobs == t.jobs && r.events == t.events &&
      r.calls == t.calls + [GetUsers(userIds)] && Fetches(r.calls) == Fetches(t.calls)
  {
    FetchesAppend(t.calls, [GetUsers(userIds)]);
    assert Fetches([GetUsers(userIds)]) == [] by {
      assert [GetUsers(userIds)][..0] == [];
    }
    var t1 := t.(calls := t.calls + [GetUsers(userIds)]);
    assert FetchUsersSpec(t, remote, userIds) == t1 || FetchUsersSpec(t, remote, userIds) == t1.(users := PutUsers(t1.users, remote.users(userIds).value));
  }

  /** A cached user costs no request; otherwise exactly one is made. Only the
      user table and the call log change. */
  lemma SyncUserEffect(t: Tables, remote: Remote, userId: string)
    ensures var (r, u) := SyncUserSpec(t, remote, userId);
      r.conversations == t.conversations && r.participants == t.participants &&
      r.messages == t.messages && r.jobs == t.jobs && r.events == t.events &&
      Fetches(r.calls) == Fetches(t.calls) &&
      (userId in t.users ==> r == t && u == Some(t.users[userId])) &&
      (userId !in t.users ==>
         (r.calls == t.calls + [GetUserById(userId)] && u == remote.user(userId) &&
          r.users == if u.Some? then t.users[u.value.userId := u.value] else t.users))
  {
    if userId !in t.users {
      assert Fetches(t.calls + [GetUserById(userId)]) == Fetches(t.calls) by {
        FetchesAppend(t.calls, [GetUserById(userId)]);
        assert Fetches([GetUserById(userId)]) == [] by {
          assert [GetUserById(userId)][..0] == [];
        }
      }
    }
  }

  /** The added rows are exactly the roster entries whose user is not stored. */
  lemma AddedIds(conversationId: string, rows: seq<ParticipantRow>, local: set<string>)
    ensures var add := Added(Online(conversationId, rows), local);
      (forall k: ParticipantKey :: HasKey(add, k) <==> k.0 == conversationId && k.1 in RosterIds(rows) && k.1 !in local) &&
      (forall id :: id in UserIdsOf(add) <==> id in RosterIds(rows) && id !in local)
  {
    var online := Online(conversationId, rows);
    var add := Added(online, local);
    forall k | HasKey(add, k) ensures k.0 == conversationId && k.1 in RosterIds(rows) && k.1 !in local {
      var i :| 0 <= i < |add| && KeyOf(add[i]) == k;
      assert add[i] in online;
      var j :| 0 <= j < |online| && online[j] == add[i];
      assert rows[j].userId == k.1;
    }
    forall k: ParticipantKey | k.0 == conversationId && k.1 in RosterIds(rows) && k.1 !in local ensures HasKey(add, k) {
      var j :| 0 <= j < |rows| && rows[j].userId == k.1;
      assert online[j] in online;
      assert online[j] in add;
      var i :| 0 <= i < |add| && add[i] == online[j];
      assert KeyOf(add[i]) == k;
    }
    forall id ensures id in UserIdsOf(add) <==> id in RosterIds(rows) && id !in local {
      if id in UserIdsOf(add) {
        var i :| 0 <= i < |add| && UserIdsOf(add)[i] == id;
        assert HasKey(add, (conversationId, id)) by {
          assert add[i] in online;
          var j :| 0 <= j < |online| && online[j] == add[i];
          assert KeyOf(add[i]) == (conversationId, id);
        }
      }
      if id in RosterIds(rows) && id !in local {
        assert HasKey(add, (conversationId, id));
        var i :| 0 <= i < |add| && KeyOf(add[i]) == (conversationId, id);
        assert UserIdsOf(add)[i] == id;
      }
    }
  }

  /** The removed ids are exactly the stored ids missing from the roster. */
  lemma RemovedIds(conversationId: string, rows: seq<ParticipantRow>, local: set<string>)
    ensures Removed(local, Online(conversationId, rows)) == local - RosterIds(rows)
  {
    var online := Online(conversationId, rows);
    forall id | id in local ensures id in Removed(local, online) <==> id !in RosterIds(rows) {
      if id in RosterIds(rows) {
        var j :| 0 <= j < |rows| && rows[j].userId == id;
        assert online[j].userId == id;
      }
    }
  }

  /** Lines 92-111: the participant table after reconciling with a roster. */
  function Reconcile(m: map<ParticipantKey, Participant>, conversationId: string, rows: seq<ParticipantRow>): map<ParticipantKey, Participant>
  {
    var local := LocalIds(m, conversationId);
    var online := Online(conversationId, rows);
    var add := Added(online, local);
    var remove := Removed(local, online);
    var m1 := if |add| > 0 then PutParticipants(m, add) else m;
    if remove != {} then DropParticipants(m1, conversationId, remove) else m1
  }

  /** Fetching users between the insert and the delete does not touch the
      participant table, so the reconciliation is `Reconcile`; only the user
      table, the call log and the event log change besides. */
  lemma RefreshParticipantsTables(t: Tables, remote: Remote, conversationId: string, rows: seq<ParticipantRow>)
    ensures var r := RefreshParticipantsSpec(t, remote, conversationId, rows);
      r.participants == Reconcile(t.participants, conversationId, rows) &&
      r.conversations == t.conversations && r.messages == t.messages && r.jobs == t.jobs &&
      Fetches(r.calls) == Fetches(t.calls)
  {
    var local := LocalIds(t.participants, conversationId);
    var add := Added(Online(conversationId, rows), local);
    FetchUsersEffect(t.(participants := PutParticipants(t.participants, add)), remote, UserIdsOf(add));
  }

  /** Some listed user is not stored exactly when rows are added. */
  lemma AddedNonEmpty(conversationId: string, rows: seq<ParticipantRow>, local: set<string>)
    ensures |Added(Online(conversationId, rows), local)| > 0 <==> RosterIds(rows) - local != {}
  {
    var add := Added(Online(conversationId, rows), local);
    AddedIds(conversationId, rows, local);
    if |add| > 0 {
      assert HasKey(add, KeyOf(add[0]));
      assert add[0].userId in RosterIds(rows) - local;
    }
    if RosterIds(rows) - local != {} {
      var id :| id in RosterIds(rows) - local;
      assert HasKey(add, (conversationId, id));
    }
  }

  /** Participants already stored and still listed keep their rows, role
      included. */
  lemma ReconcileKeepsStored(m: map<ParticipantKey, Participant>, conversationId: string, rows: seq<ParticipantRow>, id: string)
    requires id in LocalIds(m, conversationId) && id in RosterIds(rows)
    ensures var r := Reconcile(m, conversationId, rows);
      (conversationId, id) in r && r[(conversationId, id)] == m[(conversationId, id)]
  {
    var local := LocalIds(m, conversationId);
    var add := Added(Online(conversationId, rows), local);
    AddedIds(conversationId, rows, local);
    RemovedIds(conversationId, rows, local);
    assert (conversationId, id) in m;
    assert !HasKey(add, (conversationId, id));
  }

  /** A listed user that is not stored gets an added row. */
  lemma AddedListsNew(conversationId: string, rows: seq<ParticipantRow>, local: set<string>, j: nat)
    requires j < |rows| && rows[j].userId !in local
    ensures HasKey(Added(Online(conversationId, rows), local), (conversationId, rows[j].userId))
  {
    var online := Online(conversationId, rows);
    var add := Added(online, local);
    assert online[j] in add;
    var a :| 0 <= a < |add| && add[a] == online[j];
  }

  /** Every added row is a roster entry. */
  lemma AddedFromRoster(conversationId: string, rows: seq<ParticipantRow>, local: set<string>, p: Participant)
    requires p in Added(Online(conversationId, rows), local)
    ensures exists w :: 0 <= w < |rows| && p == Participant(conversationId, rows[w].userId, rows[w].role, rows[w].createdAt)
  {
    var online := Online(conversationId, rows);
    var w :| 0 <= w < |online| && online[w] == p;
  }

  /** Inserting the added rows stores a roster row for every listed user
      that was not stored. */
  lemma PutAddedTakesListed(m: map<ParticipantKey, Participant>, conversationId: string, rows: seq<ParticipantRow>,
                            local: set<string>, id: string)
    requires id in RosterIds(rows) && id !in local
    ensures var m1 := PutParticipants(m, Added(Online(conversationId, rows), local));
      (conversationId, id) in m1 && m1[(conversationId, id)].userId == id &&
      IsListedRow(conversationId, rows, m1[(conversationId, id)])
  {
    var add := Added(Online(conversationId, rows), local);
    var m1 := PutParticipants(m, add);
    var k := (conversationId, id);
    var j :| 0 <= j < |rows| && rows[j].userId == id;
    AddedListsNew(conversationId, rows, local, j);
    AddedFromRoster(conversationId, rows, local, m1[k]);
  }

  /** A newly stored participant's row is made from the roster's entry for
      that user. */
  lemma ReconcileTakesListed(m: map<ParticipantKey, Participant>, conversationId: string, rows: seq<ParticipantRow>, id: string)
    requires id in RosterIds(rows) && id !in LocalIds(m, conversationId)
    ensures var r := Reconcile(m, conversationId, rows);
      (conversationId, id) in r && r[(conversationId, id)].userId == id &&
      IsListedRow(conversationId, rows, r[(conversationId, id)])
  {
    var local := LocalIds(m, conversationId);
    var online := Online(conversationId, rows);
    var add := Added(online, local);
    var remove := Removed(local, online);
    var k := (conversationId, id);
    assert |add| > 0 by {
      var j :| 0 <= j < |rows| && rows[j].userId == id;
      AddedListsNew(conversationId, rows, local, j);
    }
    var m1 := PutParticipants(m, add);
    assert k in m1 && m1[k].userId == id && IsListedRow(conversationId, rows, m1[k]) by {
      PutAddedTakesListed(m, conversationId, rows, local, id);
    }
    var r := if remove != {} then DropParticipants(m1, conversationId, remove) else m1;
    assert r == Reconcile(m, conversationId, rows);
    assert k in r && r[k] == m1[k] by {
      assert id !in remove;
    }
  }

  /** The rows of other conversations are untouched. */
  lemma ReconcileKeepsOthers(m: map<ParticipantKey, Participant>, conversationId: string, rows: seq<ParticipantRow>, k: ParticipantKey)
    requires k.0 != conversationId
    ensures var r := Reconcile(m, conversationId, rows);
      (k in r <==> k in m) && (k in m ==> r[k] == m[k])
  {
    var local := LocalIds(m, conversationId);
    var add := Added(Online(conversationId, rows), local);
    AddedIds(conversationId, rows, local);
    assert !HasKey(add, k);
  }

  /** A stored participant that the roster does not list is deleted, and a
      user neither stored nor listed stays absent. */
  lemma ReconcileDropsUnlisted(m: map<ParticipantKey, Participant>, conversationId: string, rows: seq<ParticipantRow>, id: string)
    requires id !in RosterIds(rows)
    ensures (conversationId, id) !in Reconcile(m, conversationId, rows)
  {
    var local := LocalIds(m, conversationId);
    var online := Online(conversationId, rows);
    var add := Added(online, local);
    var remove := Removed(local, online);
    var k := (conversationId, id);
    assert !HasKey(add, k) by {
      AddedIds(conversationId, rows, local);
    }
    LocalIdsMember(m, conversationId, id);
    if id in local {
      assert id in remove by {
        RemovedIds(conversationId, rows, local);
      }
    }
  }

  /**
    Reconciling with a roster (lines 92-111): afterwards the conversation's
    stored participants are exactly the roster's users.
  */
  lemma ReconcileMatchesRoster(m: map<ParticipantKey, Participant>, conversationId: string, rows: seq<ParticipantRow>)
    ensures LocalIds(Reconcile(m, conversationId, rows), conversationId) == RosterIds(rows)
  {
    var r := Reconcile(m, conversationId, rows);
    forall id ensures id in LocalIds(r, conversationId) <==> id in RosterIds(rows) {
      LocalIdsMember(r, conversationId, id);
      if id in RosterIds(rows) {
        if id in LocalIds(m, conversationId) {
          ReconcileKeepsStored(m, conversationId, rows, id);
        } else {
          ReconcileTakesListed(m, conversationId, rows, id);
        }
      } else {
        ReconcileDropsUnlisted(m, conversationId, rows, id);
      }
    }
  }

  /** Users are fetched exactly when some listed user is not stored, and then
      exactly those (lines 102-108). */
  lemma RefreshParticipantsFetches(t: Tables, remote: Remote, conversationId: string, rows: seq<ParticipantRow>)
    ensures var r := RefreshParticipantsSpec(t, remote, conversationId, rows);
      var add := Added(Online(conversationId, rows), LocalIds(t.participants, conversationId));
      r.calls == t.calls + (if RosterIds(rows) - LocalIds(t.participants, conversationId) != {} then [GetUsers(UserIdsOf(add))] else [])
  {
    var local := LocalIds(t.participants, conversationId);
    var add := Added(Online(conversationId, rows), local);
    AddedNonEmpty(conversationId, rows, local);
    FetchUsersEffect(t.(participants := PutParticipants(t.participants, add)), remote, UserIdsOf(add));
  }

  /** The change is announced exactly when the stored set differed from the
      roster (lines 113-115). */
  lemma RefreshParticipantsAnnounces(t: Tables, remote: Remote, conversationId: string, rows: seq<ParticipantRow>)
    ensures var r := RefreshParticipantsSpec(t, remote, conversationId, rows);
      var changed := LocalIds(t.participants, conversationId) != RosterIds(rows);
      r.events == t.events + (if changed then [RefreshParticipants(conversationId)] else [])
  {
    var local := LocalIds(t.participants, conversationId);
    var online := Online(conversationId, rows);
    var add := Added(online, local);
    var remove := Removed(local, online);
    var roster := RosterIds(rows);
    AddedNonEmpty(conversationId, rows, local);
    RemovedIds(conversationId, rows, local);
    FetchUsersEffect(t.(participants := PutParticipants(t.participants, add)), remote, UserIdsOf(add));
    assert |add| > 0 || remove != {} <==> local != roster by {
      if local != roster && local - roster != {} {
        var id :| id in local - roster;
        assert id in remove;
      }
    }
  }

  /** Reconciling with a roster that already matches the stored set changes
      nothing: no insert, no delete, no fetch, no announcement. */
  lemma RefreshParticipantsSettled(t: Tables, remote: Remote, conversationId: string, rows: seq<ParticipantRow>)
    requires LocalIds(t.participants, conversationId) == RosterIds(rows)
    ensures RefreshParticipantsSpec(t, remote, conversationId, rows) == t
  {
    var local := LocalIds(t.participants, conversationId);
    AddedNonEmpty(conversationId, rows, local);
    RemovedIds(conversationId, rows, local);
  }

  /** The server answers a refresh with a conversation but no participant list. */
  predicate Throws(remote: Remote, conversationId: string)
  {
    remote.conversation(conversationId).Some? && remote.conversation(conversationId).value.participants.None?
  }

  /**
    A refresh (lines 45-76) requests the conversation exactly once and never
    another conversation; it runs to its end unless the response lacks the
    participant list; without data, or when it throws, no table changes.
  */
  lemma RefreshConversationRequests(t: Tables, me: string, remote: Remote, conversationId: string)
    ensures var r := RefreshConversationSpec(t, me, remote, conversationId);
      Fetches(r.tables.calls) == Fetches(t.calls) + [conversationId] &&
      r.completed == !Throws(remote, conversationId) &&
      (remote.conversation(conversationId).None? || Throws(remote, conversationId) ==> SameData(r.tables, t))
  {
    var t1 := t.(calls := t.calls + [GetConversation(conversationId)]);
    FetchesAppend(t.calls, [GetConversation(conversationId)]);
    assert Fetches([GetConversation(conversationId)]) == [conversationId] by {
      assert [GetConversation(conversationId)][..0] == [];
    }
    match remote.conversation(conversationId)
    case None =>
    case Some(c) =>
      match c.participants
      case None =>
      case Some(rows) =>
        var owner := OwnerOf(c, rows, me);
        var status := if IsMember(rows, me) then SUCCESS else QUIT;
        var t2 := t1.(conversations := ApplyUpdate(t1.conversations, RefreshUpdate(c, owner, status)));
        RefreshParticipantsTables(t2, remote, c.conversationId, rows);
        SyncUserEffect(RefreshParticipantsSpec(t2, remote, c.conversationId, rows), remote, owner);
  }

  /**
    After a refresh whose response lists the participants (lines 50-74), the
    stored row has status SUCCESS exactly when the account is listed and QUIT
    otherwise, the owner of lines 55-62, and the response's columns; the
    columns the refresh does not write (pin time, unseen count, draft, ...)
    keep their values; the stored participants are exactly the listed users.
  */
  lemma RefreshConversationApplies(t: Tables, me: string, remote: Remote, conversationId: string, c: Snapshot, rows: seq<ParticipantRow>)
    requires remote.conversation(conversationId) == Some(c) && c.participants == Some(rows)
    requires c.conversationId in t.conversations
    ensures var r := RefreshConversationSpec(t, me, remote, conversationId).tables;
      var before := t.conversations[c.conversationId];
      c.conversationId in r.conversations &&
      var row := r.conversations[c.conversationId];
      (row.status == SUCCESS <==> IsMember(rows, me)) && (row.status == QUIT <==> !IsMember(rows, me)) &&
      row.ownerId == OwnerOf(c, rows, me) &&
      row == before.(ownerId := row.ownerId, category := c.category, name := c.name, announcement := c.announcement,
                     createdAt := c.createdAt, status := row.status, muteUntil := c.muteUntil)
    ensures var r := RefreshConversationSpec(t, me, remote, conversationId).tables;
      LocalIds(r.participants, c.conversationId) == RosterIds(rows) &&
      r.messages == t.messages && r.jobs == t.jobs
  {
    var t1 := t.(calls := t.calls + [GetConversation(conversationId)]);
    var owner := OwnerOf(c, rows, me);
    var status := if IsMember(rows, me) then SUCCESS else QUIT;
    var t2 := t1.(conversations := ApplyUpdate(t1.conversations, RefreshUpdate(c, owner, status)));
    var t3 := RefreshParticipantsSpec(t2, remote, c.conversationId, rows);
    RefreshParticipantsTables(t2, remote, c.conversationId, rows);
    ReconcileMatchesRoster(t2.participants, c.conversationId, rows);
    SyncUserEffect(t3, remote, owner);
  }

  /** The owner a refresh stores: for a contact conversation the last listed
      user other than the account, or the creator when only the account is
      listed; for any other category the creator. */
  lemma OwnerOfRule(c: Snapshot, rows: seq<ParticipantRow>, me: string)
    ensures c.category != Some(CONTACT) ==> OwnerOf(c, rows, me) == c.creatorId
    ensures c.category == Some(CONTACT) && (forall i :: 0 <= i < |rows| ==> rows[i].userId == me) ==>
      OwnerOf(c, rows, me) == c.creatorId
    ensures c.category == Some(CONTACT) && (exists i :: 0 <= i < |rows| && rows[i].userId != me) ==>
      exists i :: 0 <= i < |rows| && rows[i].userId == OwnerOf(c, rows, me) && rows[i].userId != me &&
        forall j :: i < j < |rows| ==> rows[j].userId == me
  {
    LastOtherIsLastOther(rows, me, c.creatorId);
  }

  /** Syncing a user again, once the user table is what the first sync left,
      leaves it as it is. */
  lemma SyncUserAgain(t: Tables, u: Tables, remote: Remote, userId: string)
    requires u.users == SyncUserSpec(t, remote, userId).0.users
    ensures SyncUserSpec(u, remote, userId).0.users == u.users
  {
    if userId !in t.users && userId !in u.users {
      match remote.user(userId)
      case None =>
      case Some(v) =>
        assert u.users == t.users[v.userId := v];
        assert u.users[v.userId := v] == u.users;
    }
  }

  /** The second refresh of a listed response rewrites the same row,
      finds the participants settled and the owner synced. */
  lemma RefreshListedAgain(t: Tables, me: string, remote: Remote, conversationId: string, c: Snapshot, rows: seq<ParticipantRow>)
    requires remote.conversation(conversationId) == Some(c) && c.participants == Some(rows)
    ensures var once := RefreshConversationSpec(t, me, remote, conversationId).tables;
      SameData(RefreshConversationSpec(once, me, remote, conversationId).tables, once)
  {
    var owner := OwnerOf(c, rows, me);
    var status := if IsMember(rows, me) then SUCCESS else QUIT;
    var update := RefreshUpdate(c, owner, status);
    var t1 := t.(calls := t.calls + [GetConversation(conversationId)]);
    var t2 := t1.(conversations := ApplyUpdate(t1.conversations, update));
    var t3 := RefreshParticipantsSpec(t2, remote, c.conversationId, rows);
    var once := SyncUserSpec(t3, remote, owner).0;
    assert once == RefreshConversationSpec(t, me, remote, conversationId).tables;
    assert once.conversations == t2.conversations && LocalIds(once.participants, c.conversationId) == RosterIds(rows) by {
      RefreshParticipantsTables(t2, remote, c.conversationId, rows);
      ReconcileMatchesRoster(t2.participants, c.conversationId, rows);
      SyncUserEffect(t3, remote, owner);
    }
    assert ApplyUpdate(once.conversations, update) == once.conversations;
    SyncUserAgain(t3, once, remote, owner);
    RefreshSettledAgain(once, me, remote, conversationId, c, rows);
  }

  /** A refresh that finds the row already holding the response's columns,
      the participants matching the roster and the owner synced changes no
      table. */
  lemma RefreshSettledAgain(u: Tables, me: string, remote: Remote, conversationId: string, c: Snapshot, rows: seq<ParticipantRow>)
    requires remote.conversation(conversationId) == Some(c) && c.participants == Some(rows)
    requires ApplyUpdate(u.conversations, RefreshUpdate(c, OwnerOf(c, rows, me), if IsMember(rows, me) then SUCCESS else QUIT)) == u.conversations
    requires LocalIds(u.participants, c.conversationId) == RosterIds(rows)
    requires SyncUserSpec(u, remote, OwnerOf(c, rows, me)).0.users == u.users
    ensures SameData(RefreshConversationSpec(u, me, remote, conversationId).tables, u)
  {
    var owner := OwnerOf(c, rows, me);
    var update := RefreshUpdate(c, owner, if IsMember(rows, me) then SUCCESS else QUIT);
    var s1 := u.(calls := u.calls + [GetConversation(conversationId)]);
    var s2 := s1.(conversations := ApplyUpdate(s1.conversations, update));
    assert SameData(s2, u);
    RefreshParticipantsSettled(s2, remote, c.conversationId, rows);
    assert SyncUserSpec(s2, remote, owner).0.users == u.users;
    SyncUserEffect(s2, remote, owner);
    assert RefreshConversationSpec(u, me, remote, conversationId).tables == SyncUserSpec(s2, remote, owner).0;
  }

  /**
    A second refresh against the same server leaves every table as the first
    one left it: the participants already match the roster, the row already
    holds the response's columns, and the owner is already synced. Only the
    logs grow.
  */
  lemma RefreshConversationIdempotent(t: Tables, me: string, remote: Remote, conversationId: string)
    ensures var once := RefreshConversationSpec(t, me, remote, conversationId).tables;
      SameData(RefreshConversationSpec(once, me, remote, conversationId).tables, once)
  {
    match remote.conversation(conversationId)
    case None =>
    case Some(c) =>
      match c.participants
      case None =>
      case Some(rows) =>
        RefreshListedAgain(t, me, remote, conversationId, c, rows);
  }

  /** The event names the conversation `syncConversation` is about. */
  predicate IsNew(t: Tables, me: string, data: SyncData)
  {
    data.conversationId != me && data.conversationId !in t.conversations
  }

  /**
    `syncConversation` (lines 13-43): an event naming the account itself
    changes nothing; a known conversation is refreshed once when it is in
    START and not at all otherwise; an unknown one is stored in START
    (owned by the event's user, unseen count 0) and refreshed twice, because
    the local variable at line 40 still says START, unless the first refresh
    throws.
  */
  lemma SyncConversationRequests(t: Tables, me: string, remote: Remote, data: SyncData, now: string)
    ensures var r := SyncConversationSpec(t, me, remote, data, now);
      var id := data.conversationId;
      Fetches(r.tables.calls) == Fetches(t.calls) +
        (if id == me then []
         else if id !in t.conversations then (if Throws(remote, id) then [id] else [id, id])
         else if t.conversations[id].status == START then [id]
         else [])
    ensures var r := SyncConversationSpec(t, me, remote, data, now);
      data.conversationId == me || (data.conversationId in t.conversations && t.conversations[data.conversationId].status != START) ==>
        r == Run(t, true)
  {
    var id := data.conversationId;
    if IsNew(t, me, data) {
      var t1 := t.(conversations := t.conversations[id := NewConversation(data, now)]);
      RefreshConversationRequests(t1, me, remote, id);
      var first := RefreshConversationSpec(t1, me, remote, id);
      RefreshConversationRequests(first.tables, me, remote, id);
    } else if id != me && t.conversations[id].status == START {
      RefreshConversationRequests(t, me, remote, id);
    }
  }

  /**
    For an unknown conversation the second refresh is harmless: the tables
    end as one refresh of the freshly stored START row leaves them. This
    rests on `Remote` answering a request from its arguments alone, so both
    refreshes see the same server snapshot. When the server sends no data
    that row stays as created.
  */
  lemma SyncConversationNew(t: Tables, me: string, remote: Remote, data: SyncData, now: string)
    requires IsNew(t, me, data)
    ensures var id := data.conversationId;
      var t1 := t.(conversations := t.conversations[id := NewConversation(data, now)]);
      SameData(SyncConversationSpec(t, me, remote, data, now).tables, RefreshConversationSpec(t1, me, remote, id).tables)
    ensures var r := SyncConversationSpec(t, me, remote, data, now).tables;
      remote.conversation(data.conversationId).None? ==>
        data.conversationId in r.conversations && r.conversations[data.conversationId] == NewConversation(data, now) &&
        r.conversations[data.conversationId].status == START && r.conversations[data.conversationId].ownerId == data.userId
  {
    var id := data.conversationId;
    var t1 := t.(conversations := t.conversations[id := NewConversation(data, now)]);
    RefreshConversationRequests(t1, me, remote, id);
    RefreshConversationIdempotent(t1, me, remote, id);
    var first := RefreshConversationSpec(t1, me, remote, id);
    RefreshConversationRequests(first.tables, me, remote, id);
  }

  // ---------------------------------------------------------------------------
  // Every table stays keyed by its rows' own identifiers
  // ---------------------------------------------------------------------------

  lemma FetchUsersKeys(t: Tables, remote: Remote, userIds: seq<string>)
    requires KeysMatch(t)
    ensures KeysMatch(FetchUsersSpec(t, remote, userIds))
  {
    match remote.users(userIds)
    case None =>
    case Some(us) =>
      var r := PutUsers(t.users, us);
      forall id | id in r ensures r[id].userId == id {
        if HasUser(us, id) {
          PutUsersStoresSent(t.users, us, id);
        }
      }
  }

  lemma SyncUserKeys(t: Tables, remote: Remote, userId: string)
    requires KeysMatch(t)
    ensures KeysMatch(SyncUserSpec(t, remote, userId).0)
  {
  }

  lemma RefreshParticipantsKeys(t: Tables, remote: Remote, conversationId: string, rows: seq<ParticipantRow>)
    requires KeysMatch(t)
    ensures KeysMatch(RefreshParticipantsSpec(t, remote, conversationId, rows))
  {
    var local := LocalIds(t.participants, conversationId);
    var online := Online(conversationId, rows);
    var add := Added(online, local);
    var remove := Removed(local, online);
    var t1 := if |add| > 0 then FetchUsersSpec(t.(participants := PutParticipants(t.participants, add)), remote, UserIdsOf(add)) else t;
    assert KeysMatch(t1) by {
      if |add| > 0 {
        PutParticipantsKeysMatch(t.participants, add);
        FetchUsersKeys(t.(participants := PutParticipants(t.participants, add)), remote, UserIdsOf(add));
      }
    }
    var t2 := if remove != {} then t1.(participants := DropParticipants(t1.participants, conversationId, remove)) else t1;
    assert KeysMatch(t2);
    assert RefreshParticipantsSpec(t, remote, conversationId, rows) ==
      if |add| > 0 || remove != {} then t2.(events := t2.events + [RefreshParticipants(conversationId)]) else t2;
  }

  lemma RefreshConversationKeys(t: Tables, me: string, remote: Remote, conversationId: string)
    requires KeysMatch(t)
    ensures KeysMatch(RefreshConversationSpec(t, me, remote, conversationId).tables)
  {
    match remote.conversation(conversationId)
    case None =>
    case Some(c) =>
      match c.participants
      case None =>
      case Some(rows) =>
        var status := if IsMember(rows, me) then SUCCESS else QUIT;
        var owner := OwnerOf(c, rows, me);
        var t1 := t.(calls := t.calls + [GetConversation(conversationId)]);
        var t2 := t1.(conversations := ApplyUpdate(t1.conversations, RefreshUpdate(c, owner, status)));
        assert KeysMatch(t2);
        RefreshParticipantsKeys(t2, remote, c.conversationId, rows);
        SyncUserKeys(RefreshParticipantsSpec(t2, remote, c.conversationId, rows), remote, owner);
  }

  lemma SyncConversationKeys(t: Tables, me: string, remote: Remote, data: SyncData, now: string)
    requires KeysMatch(t)
    ensures KeysMatch(SyncConversationSpec(t, me, remote, data, now).tables)
  {
    var id := data.conversationId;
    if IsNew(t, me, data) {
      var t1 := t.(conversations := t.conversations[id := NewConversation(data, now)]);
      RefreshConversationKeys(t1, me, remote, id);
      RefreshConversationKeys(RefreshConversationSpec(t1, me, remote, id).tables, me, remote, id);
    } else if id != me && t.conversations[id].status == START {
      RefreshConversationKeys(t, me, remote, id);
    }
  }

  /** Lines 83-90: the roster as participant rows, built by a loop. */
  method RosterRows(conversationId: string, participants: seq<ParticipantRow>) returns (online: seq<Participant>)
    ensures online == Online(conversationId, participants)
  {
    online := [];
    var i := 0;
    while i < |participants|
      invariant i <= |participants|
      invariant online == Online(conversationId, participants[..i])
    {
      online := online + [Participant(conversationId, participants[i].userId, participants[i].role, participants[i].createdAt)];
      i := i + 1;
    }
    assert participants[..i] == participants;
  }

  /** Lines 92-96: the rows to insert, built by a loop. */
  method NewRows(online: seq<Participant>, localIds: set<string>) returns (add: seq<Participant>)
    ensures add == Added(online, localIds)
  {
    add := [];
    var i := 0;
    while i < |online|
      invariant i <= |online|
      invariant add == Added(online[..i], localIds)
    {
      assert online[..i + 1][..i] == online[..i];
      if online[i].userId !in localIds {
        add := add + [online[i]];
      }
      i := i + 1;
    }
    assert online[..i] == online;
  }

  /** Lines 97-101: the ids to delete, built by a loop over the stored ids. */
  method GoneIds(localIds: set<string>, online: seq<Participant>) returns (remove: set<string>)
    ensures remove == Removed(localIds, online)
  {
    remove := {};
    var rest := localIds;
    while rest != {}
      invariant rest <= localIds
      invariant remove == Removed(localIds - rest, online)
      decreases rest
    {
      var id :| id in rest;
      if !exists k | 0 <= k < |online| :: online[k].userId == id {
        remove := remove + {id};
      }
      rest := rest - {id};
    }
    assert localIds - rest == localIds;
  }

  /** The worker: the store its data-access calls write, and the signed-in
      account read at lines 14 and 49. */
  class BaseWorker {
    const db: LocalStore
    const account: string

    constructor (db: LocalStore, account: string)
      ensures this.db == db && this.account == account
    {
      this.db := db;
      this.account := account;
    }

    /** `syncConversation` (lines 13-43); `completed` is false when a
        refresh threw. */
    method SyncConversation(remote: Remote, data: SyncData, now: string) returns (completed: bool)
      modifies db
      ensures var r := SyncConversationSpec(old(db.State()), account, remote, data, now);
        db.State() == r.tables && completed == r.completed
    {
      if data.conversationId == account {
        return true;
      }
      var conversation := if data.conversationId in db.conversations then Some(db.conversations[data.conversationId]) else None;
      if conversation.None? {
        var row := NewConversation(data, now);
        db.InsertConversation(row);
        conversation := Some(row);
        completed := RefreshConversation(remote, data.conversationId);
        if !completed {
          return;
        }
      }
      if conversation.value.status == START {
        completed := RefreshConversation(remote, data.conversationId);
        return;
      }
      return true;
    }

    /** `refreshConversation` (lines 45-76), with the owner loop of lines
        57-61. */
    method RefreshConversation(remote: Remote, conversationId: string) returns (completed: bool)
      modifies db
      ensures var r := RefreshConversationSpec(old(db.State()), account, remote, conversationId);
        db.State() == r.tables && completed == r.completed
    {
      db.Request(GetConversation(conversationId));
      var c := remote.conversation(conversationId);
      if c.None? {
        return true;
      }
      var conversation := c.value;
      if conversation.participants.None? {
        return false;
      }
      var participants := conversation.participants.value;
      var result := IsMember(participants, account);
      var status := if result then SUCCESS else QUIT;
      var ownerId := conversation.creatorId;
      if conversation.category == Some(CONTACT) {
        var i := 0;
        while i < |participants|
          invariant i <= |participants|
          invariant ownerId == LastOther(participants[..i], account, conversation.creatorId)
        {
          assert participants[..i + 1][..i] == participants[..i];
          if participants[i].userId != account {
            ownerId := participants[i].userId;
          }
          i := i + 1;
        }
        assert participants[..i] == participants;
      }
      db.UpdateConversation(RefreshUpdate(conversation, ownerId, status));
      RefreshParticipants(remote, conversation.conversationId, participants);
      var owner := SyncUser(remote, ownerId);
      return true;
    }

    /** `refreshParticipants` (lines 77-116). */
    method RefreshParticipants(remote: Remote, conversationId: string, participants: seq<ParticipantRow>)
      modifies db
      ensures db.State() == RefreshParticipantsSpec(old(db.State()), remote, conversationId, participants)
    {
      var localIds := LocalIds(db.participants, conversationId);
      var online := RosterRows(conversationId, participants);
      var add := NewRows(online, localIds);
      var remove := GoneIds(localIds, online);
      if |add| > 0 {
        db.InsertParticipants(add);
        var needFetchUsers := UserIdsOf(add);
        FetchUsers(remote, needFetchUsers);
      }
      if remove != {} {
        db.DeleteParticipants(conversationId, remove);
      }
      if |add| > 0 || remove != {} {
        db.Emit(Event.RefreshParticipants(conversationId));
      }
    }

    /** `fetchUsers` (lines 118-123). */
    method FetchUsers(remote: Remote, users: seq<string>)
      modifies db
      ensures db.State() == FetchUsersSpec(old(db.State()), remote, users)
    {
      db.Request(GetUsers(users));
      var resp := remote.users(users);
      if resp.Some? {
        db.InsertUsers(resp.value);
      }
    }

    /** `syncUser` (lines 125-136). */
    method SyncUser(remote: Remote, userId: string) returns (user: Option<User>)
      modifies db
      ensures (db.State(), user) == SyncUserSpec(old(db.State()), remote, userId)
    {
      user := if userId in db.users then Some(db.users[userId]) else None;
      if user.None? {
        db.Request(GetUserById(userId));
        var response := remote.user(userId);
        if response.Some? {
          user := response;
          db.InsertUser(response.value);
        }
      }
    }
  }
}
