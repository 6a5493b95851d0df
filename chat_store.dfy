/**
 * The `chats` and `users` collections held in memory, and `startChat`: look through the
 * current user's chats for one that already contains the target, and create a chat
 * with both members only when there is none. Calls are sequential.
 */
module ChatStore {
  import opened Wrappers
  import opened Seqs
  import opened ChatList

  /** The query `where("members", "array-contains", uid)` over the chats collection. */
  function ChatsOf(chats: seq<Chat>, uid: Uid): (r: seq<Chat>)
    ensures |r| <= |chats|
    ensures forall c :: c in r <==> c in chats && uid in c.members
  {
    var keep := (c: Chat) => uid in c.members;
    assert forall c :: c in FilterBy(chats, keep) <==> c in chats && uid in c.members by {
      forall c ensures c in FilterBy(chats, keep) <==> c in chats && uid in c.members {
        FilterMembership(chats, keep, c);
      }
    }
    FilterBy(chats, keep)
  }

  /** The chat has both `a` and `b` among its members. */
  predicate Joins(chat: Chat, a: Uid, b: Uid) {
    a in chat.members && b in chat.members
  }

  /** Some chat of the collection contains both users. */
  predicate HasChatBetween(chats: seq<Chat>, a: Uid, b: Uid) {
    exists c :: c in chats && Joins(c, a, b)
  }

  /** The document `addDoc` writes: both members, the server timestamp and an empty last message. */
  function NewChat(id: ChatId, current: Uid, target: Uid, now: Timestamp): Chat {
    Chat(id, [current, target], now, "", None, None)
  }

  /** How a `startChat` call ends: no signed-in user, the "already exists" alert, or a created chat. */
  datatype StartOutcome = NotSignedIn | AlreadyExists | Created(chat: Chat)

  /** The outcome of `startChat(target)` against the chats collection `chats`. */
  function StartOutcomeOf(chats: seq<Chat>, current: Option<Uid>, target: Uid, newId: ChatId, now: Timestamp): StartOutcome {
    if current.None? then NotSignedIn
    else if HasChatBetween(chats, current.value, target) then AlreadyExists
    else Created(NewChat(newId, current.value, target, now))
  }

  /** The chats collection after a call with the given outcome. */
  function AfterStart(chats: seq<Chat>, outcome: StartOutcome): seq<Chat> {
    if outcome.Created? then chats + [outcome.chat] else chats
  }

  /** The `querySnapshot.forEach` loop: is the target a member of any chat of the snapshot? */
  method ScanSnapshot(snapshot: seq<Chat>, target: Uid) returns (chatExists: bool)
    ensures chatExists <==> exists c :: c in snapshot && target in c.members
  {
    chatExists := false;
    for i := 0 to |snapshot|
      invariant chatExists <==> exists j :: 0 <= j < i && target in snapshot[j].members
    {
      if target in snapshot[i].members {
        chatExists := true;
      }
    }
  }

  /** Scanning the current user's chats for the target finds exactly a chat between the two. */
  lemma QueryThenScan(chats: seq<Chat>, current: Uid, target: Uid)
    ensures (exists c :: c in ChatsOf(chats, current) && target in c.members) <==> HasChatBetween(chats, current, target)
  {
    forall c ensures c in ChatsOf(chats, current) <==> c in chats && current in c.members {
      FilterMembership(chats, (c: Chat) => current in c.members, c);
    }
  }

  class Store {
    var chats: seq<Chat>
    var users: map<Uid, UserDoc>

    constructor (chats: seq<Chat>, users: map<Uid, UserDoc>)
      ensures this.chats == chats && this.users == users
    {
      this.chats := chats;
      this.users := users;
    }

    /** The list the sidebar shows for `current` with search term `term`, over this store's collections. */
    function Listing(current: Uid, term: string): (r: seq<Chat>)
      reads this
      ensures forall x :: x in r ==>
                Keep(x, term) && exists c :: c in chats && current in c.members && x == EnrichChat(c, current, users)
      ensures forall c :: c in chats && current in c.members ==>
                (EnrichChat(c, current, users) in r <==> Keep(EnrichChat(c, current, users), term))
    {
      ChatListingSpec(chats, users, current, term);
      ChatListing(chats, users, current, term)
    }

    /**
     * `startChat(user)` for the signed-in user `current`. `newId` and `now` stand for the
     * document id and the server timestamp that the store assigns on `addDoc`.
     */
    method StartChat(current: Option<Uid>, target: Uid, newId: ChatId, now: Timestamp) returns (outcome: StartOutcome)
      modifies this
      ensures users == old(users)
      ensures outcome == StartOutcomeOf(old(chats), current, target, newId, now)
      ensures chats == AfterStart(old(chats), outcome)
      ensures current.None? ==> chats == old(chats)
      ensures current.Some? && HasChatBetween(old(chats), current.value, target) ==> chats == old(chats)
      ensures current.Some? && !HasChatBetween(old(chats), current.value, target) ==>
                chats == old(chats) + [Chat(newId, [current.value, target], now, "", None, None)]
      ensures current.Some? ==> HasChatBetween(chats, current.value, target)
    {
      if current.None? {
        return NotSignedIn;
      }
      var snapshot := ChatsOf(chats, current.value);
      var chatExists := ScanSnapshot(snapshot, target);
      QueryThenScan(chats, current.value, target);
      if chatExists {
        return AlreadyExists;
      }
      var chat := NewChat(newId, current.value, target, now);
      assert Joins(chat, current.value, target);
      chats := chats + [chat];
      assert chat in chats;
      outcome := Created(chat);
    }
  }

  /** Having a chat between two users does not depend on who asks. */
  lemma HasChatBetweenSymmetric(chats: seq<Chat>, a: Uid, b: Uid)
    ensures HasChatBetween(chats, a, b) <==> HasChatBetween(chats, b, a)
  {
  }

  /**
   * After `startChat(A, B)` a second `startChat(A, B)` or `startChat(B, A)` adds no
   * chat, whatever happened the first time.
   */
  lemma StartChatTwiceAddsNothing(chats: seq<Chat>, a: Uid, b: Uid, id1: ChatId, now1: Timestamp, id2: ChatId, now2: Timestamp)
    ensures var once := AfterStart(chats, StartOutcomeOf(chats, Some(a), b, id1, now1));
            && StartOutcomeOf(once, Some(a), b, id2, now2) == AlreadyExists
            && StartOutcomeOf(once, Some(b), a, id2, now2) == AlreadyExists
            && AfterStart(once, StartOutcomeOf(once, Some(a), b, id2, now2)) == once
            && AfterStart(once, StartOutcomeOf(once, Some(b), a, id2, now2)) == once
  {
    var o := StartOutcomeOf(chats, Some(a), b, id1, now1);
    var once := AfterStart(chats, o);
    if o.Created? {
      assert once[|chats|] == o.chat && Joins(o.chat, a, b);
    } else {
      assert HasChatBetween(chats, a, b);
    }
    assert HasChatBetween(once, a, b);
    HasChatBetweenSymmetric(once, a, b);
  }

  /**
   * Self-chat is not rejected: `startChat(u, u)` reports an existing chat as soon as `u`
   * belongs to any chat, and otherwise creates a chat whose members are `[u, u]`.
   */
  lemma SelfChatOutcome(chats: seq<Chat>, u: Uid, newId: ChatId, now: Timestamp)
    ensures StartOutcomeOf(chats, Some(u), u, newId, now)
            == if ChatsOf(chats, u) != [] then AlreadyExists
               else Created(Chat(newId, [u, u], now, "", None, None))
  {
    QueryThenScan(chats, u, u);
    if ChatsOf(chats, u) != [] {
      assert ChatsOf(chats, u)[0] in ChatsOf(chats, u);
    }
  }

  /** No two chats of the collection share the same pair of distinct members. */
  ghost predicate AtMostOneChatPerPair(chats: seq<Chat>) {
    forall i, j, a, b :: 0 <= i < j < |chats| && a != b && Joins(chats[i], a, b) ==> !Joins(chats[j], a, b)
  }

  /** Sequential `startChat` calls never create a second chat for the same pair of users. */
  lemma StartChatKeepsPairsUnique(chats: seq<Chat>, current: Option<Uid>, target: Uid, newId: ChatId, now: Timestamp)
    requires AtMostOneChatPerPair(chats)
    ensures AtMostOneChatPerPair(AfterStart(chats, StartOutcomeOf(chats, current, target, newId, now)))
  {
    var o := StartOutcomeOf(chats, current, target, newId, now);
    if o.Created? {
      var after := chats + [o.chat];
      forall i, j, a, b | 0 <= i < j < |after| && a != b && Joins(after[i], a, b)
        ensures !Joins(after[j], a, b)
      {
        if j == |chats| {
          assert after[i] == chats[i] && chats[i] in chats;
          assert !Joins(chats[i], current.value, target);
        }
      }
    }
  }

  /** The list the sidebar shows: the user's chats, enriched, then filtered by the search term. */
  function ChatListing(chats: seq<Chat>, users: map<Uid, UserDoc>, current: Uid, term: string): seq<Chat> {
    Filter(Enrich(ChatsOf(chats, current), current, users), term)
  }

  /**
   * A chat created between two different users shows up in the creator's list under an
   * empty search, named after the counterpart.
   */
  lemma CreatedChatIsListed(chats: seq<Chat>, users: map<Uid, UserDoc>, a: Uid, b: Uid, newId: ChatId, now: Timestamp)
    requires a != b && b != ""
    requires !HasChatBetween(chats, a, b)
    ensures var after := AfterStart(chats, StartOutcomeOf(chats, Some(a), b, newId, now));
            var listed := EnrichChat(NewChat(newId, a, b, now), a, users);
            && listed in ChatListing(after, users, a, "")
            && listed.name == Some(DisplayName(users, b))
  {
    var n := NewChat(newId, a, b, now);
    var after := chats + [n];
    var keep := (c: Chat) => a in c.members;
    FilterAppend(chats, [n], keep);
    assert FilterBy([n], keep) == [n];
    var mine := ChatsOf(after, a);
    assert mine[|mine| - 1] == n;
    var e := Enrich(mine, a, users);
    var listed := EnrichChat(n, a, users);
    assert e[|e| - 1] == listed;
    assert Counterpart(n.members, a) == Some(b);
    KeepEmptyTerm(listed);
    FilterMembership(e, c => Keep(c, ""), listed);
  }

  /**
   * A self-chat `[u, u]` has no counterpart, so enrichment leaves it unnamed and the
   * search filter drops it whatever the term.
   */
  lemma SelfChatNeverListed(u: Uid, newId: ChatId, now: Timestamp, users: map<Uid, UserDoc>, term: string)
    ensures EnrichChat(NewChat(newId, u, u, now), u, users) == NewChat(newId, u, u, now)
    ensures !Keep(EnrichChat(NewChat(newId, u, u, now), u, users), term)
  {
  }

  /**
   * The listing holds exactly the enriched chats of the user that pass the search: each
   * listed chat is the enrichment of one of the user's chats, and every chat with the user
   * among its members reaches it once enriched, unless the filter drops it.
   */
  lemma ChatListingSpec(chats: seq<Chat>, users: map<Uid, UserDoc>, current: Uid, term: string)
    ensures forall x :: x in ChatListing(chats, users, current, term) ==>
              Keep(x, term) && exists c :: c in chats && current in c.members && x == EnrichChat(c, current, users)
    ensures forall c :: c in chats && current in c.members ==>
              (EnrichChat(c, current, users) in ChatListing(chats, users, current, term)
               <==> Keep(EnrichChat(c, current, users), term))
  {
    var mine := ChatsOf(chats, current);
    var e := Enrich(mine, current, users);
    FilterSpec(e, term);
    forall c | c in chats && current in c.members
      ensures EnrichChat(c, current, users) in e
    {
      var k :| 0 <= k < |mine| && mine[k] == c;
      assert e[k] == EnrichChat(c, current, users);
    }
    forall x | x in ChatListing(chats, users, current, term)
      ensures exists c :: c in chats && current in c.members && x == EnrichChat(c, current, users)
    {
      var k :| 0 <= k < |e| && e[k] == x;
      assert mine[k] in mine;
      assert x == EnrichChat(mine[k], current, users);
    }
  }
}
