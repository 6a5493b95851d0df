/**
 * The chat list of the sidebar: each chat of the current user is enriched with the
 * name and avatar of its counterpart, and the list shown is filtered by the search box.
 */
module ChatList {
  import opened Wrappers
  import opened Strings
  import opened Seqs

  type Uid = string
  type ChatId = string
  /** The server timestamp is opaque to the client; it is carried along, never inspected. */
  type Timestamp = string

  /** A document of the `users` collection; either field may be absent from the stored data. */
  datatype UserDoc = UserDoc(name: Option<string>, img: Option<string>)

  /** A chat document as the client holds it; `name` and `img` are filled in by enrichment. */
  datatype Chat = Chat(
    id: ChatId,
    members: seq<Uid>,
    createdAt: Timestamp,
    lastMsg: string,
    name: Option<string>,
    img: Option<string>)

  const UnknownUser: string := "Unknown User"
  const DefaultImg: string := "/profile-user.svg"

  /** `members.find(uid => uid !== current)`: the first member who is not the current user. */
  function Counterpart(members: seq<Uid>, current: Uid): (r: Option<Uid>)
    ensures r.None? <==> forall i :: 0 <= i < |members| ==> members[i] == current
    ensures r.Some? ==> exists k :: 0 <= k < |members| && members[k] == r.value != current
                          && forall j :: 0 <= j < k ==> members[j] == current
  {
    if members == [] then None
    else if members[0] != current then Some(members[0])
    else
      var r := Counterpart(members[1..], current);
      assert r.Some? ==> exists k :: 0 < k < |members| && members[k] == r.value
                           && forall j :: 0 <= j < k ==> members[j] == current by {
        if r.Some? {
          var k :| 0 <= k < |members| - 1 && members[1..][k] == r.value
                   && forall j :: 0 <= j < k ==> members[1..][j] == current;
          assert members[k + 1] == r.value;
          assert forall j :: 0 < j < k + 1 ==> members[j] == members[1..][j - 1];
        }
      }
      r
  }

  /** JavaScript's `value || fallback` on a string that may be missing: "" falls back too. */
  function OrDefault(value: Option<string>, fallback: string): string {
    if value.Some? && value.value != "" then value.value else fallback
  }

  /** `userData?.name || "Unknown User"` for the counterpart `uid`. */
  function DisplayName(users: map<Uid, UserDoc>, uid: Uid): (r: string)
    ensures r != ""
    ensures if uid in users && users[uid].name.Some? && users[uid].name.value != ""
            then r == users[uid].name.value else r == UnknownUser
  {
    OrDefault(if uid in users then users[uid].name else None, UnknownUser)
  }

  /** `userData?.img || "/profile-user.svg"` for the counterpart `uid`. */
  function DisplayImg(users: map<Uid, UserDoc>, uid: Uid): (r: string)
    ensures r != ""
    ensures if uid in users && users[uid].img.Some? && users[uid].img.value != ""
            then r == users[uid].img.value else r == DefaultImg
  {
    OrDefault(if uid in users then users[uid].img else None, DefaultImg)
  }

  /**
   * One step of the enrichment map. A chat without a counterpart (or whose counterpart
   * uid is the falsy "") is returned as it is; otherwise `name` and `img` are replaced.
   */
  function EnrichChat(chat: Chat, current: Uid, users: map<Uid, UserDoc>): (r: Chat)
    ensures r.id == chat.id && r.members == chat.members
    ensures r.createdAt == chat.createdAt && r.lastMsg == chat.lastMsg
  {
    var other := Counterpart(chat.members, current);
    if other.None? || other.value == "" then chat
    else chat.(name := Some(DisplayName(users, other.value)), img := Some(DisplayImg(users, other.value)))
  }

  /** The enrichment `chatData.map(...)`: one output per chat, in the same order. */
  function Enrich(chats: seq<Chat>, current: Uid, users: map<Uid, UserDoc>): (r: seq<Chat>)
    ensures |r| == |chats|
    ensures forall i :: 0 <= i < |chats| ==>
              && r[i].id == chats[i].id && r[i].members == chats[i].members
              && r[i].createdAt == chats[i].createdAt && r[i].lastMsg == chats[i].lastMsg
  {
    seq(|chats|, i requires 0 <= i < |chats| => EnrichChat(chats[i], current, users))
  }

  /**
   * The enriched name and image: the counterpart's stored values when the record exists
   * and they are non-empty, the defaults otherwise; a chat with no usable counterpart is
   * left exactly as it was.
   */
  lemma EnrichChatFields(chat: Chat, current: Uid, users: map<Uid, UserDoc>)
    ensures var other := Counterpart(chat.members, current);
            var r := EnrichChat(chat, current, users);
            if other.None? || other.value == "" then r == chat
            else
              var u := other.value;
              && r.name == Some(if u in users && users[u].name.Some? && users[u].name.value != ""
                                then users[u].name.value else UnknownUser)
              && r.img == Some(if u in users && users[u].img.Some? && users[u].img.value != ""
                               then users[u].img.value else DefaultImg)
  {
  }

  /** The chat has a counterpart whose uid is truthy, so enrichment fills in its name and image. */
  predicate HasUsableCounterpart(chat: Chat, current: Uid) {
    var other := Counterpart(chat.members, current);
    other.Some? && other.value != ""
  }

  /** Enrichment yields a non-empty name exactly when the chat has a usable counterpart or was already named. */
  lemma EnrichedNameNonEmpty(chat: Chat, current: Uid, users: map<Uid, UserDoc>)
    ensures var r := EnrichChat(chat, current, users);
            (r.name.Some? && r.name.value != "") <==> HasUsableCounterpart(chat, current) || Named(chat)
  {
  }

  /** The chat carries a truthy name: present and not "". */
  predicate Named(chat: Chat) {
    chat.name.Some? && chat.name.value != ""
  }

  /** The search predicate: a non-empty name that contains the term, ignoring ASCII case. */
  predicate Keep(chat: Chat, term: string) {
    Named(chat) && Includes(Lower(chat.name.value), Lower(term))
  }

  /** `chats.filter(chat => chat.name && chat.name.toLowerCase().includes(searchTerm.toLowerCase()))`. */
  function Filter(chats: seq<Chat>, term: string): (r: seq<Chat>)
    ensures |r| <= |chats|
    ensures forall c :: c in r ==> c in chats && Keep(c, term)
  {
    FilterBy(chats, c => Keep(c, term))
  }

  /**
   * The filtered list is an order-preserving subsequence of the chats, holding every chat
   * that matches as often as the input does, and no other chat.
   */
  lemma FilterSpec(chats: seq<Chat>, term: string)
    ensures IsSubsequence(Filter(chats, term), chats)
    ensures forall c :: c in Filter(chats, term) <==> c in chats && Keep(c, term)
    ensures forall c :: multiset(Filter(chats, term))[c] == if Keep(c, term) then multiset(chats)[c] else 0
  {
    var keep := c => Keep(c, term);
    FilterIsSubsequence(chats, keep);
    forall c ensures c in Filter(chats, term) <==> c in chats && Keep(c, term) {
      FilterMembership(chats, keep, c);
    }
    forall c ensures multiset(Filter(chats, term))[c] == if Keep(c, term) then multiset(chats)[c] else 0 {
      FilterCounts(chats, keep, c);
    }
  }

  /** With an empty search term a chat is kept exactly when it has a non-empty name. */
  lemma KeepEmptyTerm(chat: Chat)
    ensures Keep(chat, "") <==> Named(chat)
  {
    if chat.name.Some? {
      IncludesEmpty(Lower(chat.name.value));
    }
  }

  /** The empty search keeps all named chats, in order, and still drops the unnamed ones. */
  lemma FilterEmptyTerm(chats: seq<Chat>)
    ensures Filter(chats, "") == FilterBy(chats, Named)
  {
    forall c: Chat { KeepEmptyTerm(c); }
    FilterSamePredicate(chats, c => Keep(c, ""), Named);
  }

  /** The case of the search term does not matter. */
  lemma FilterIgnoresTermCase(chats: seq<Chat>, term: string)
    ensures Filter(chats, Lower(term)) == Filter(chats, term)
  {
    LowerIdempotent(term);
    FilterSamePredicate(chats, c => Keep(c, Lower(term)), c => Keep(c, term));
  }

  /** Searching again with the same term changes nothing. */
  lemma FilterIdempotentTerm(chats: seq<Chat>, term: string)
    ensures Filter(Filter(chats, term), term) == Filter(chats, term)
  {
    FilterIdempotent(chats, c => Keep(c, term));
  }

  /**
   * When every chat has a counterpart with a non-empty uid, none is lost between
   * enrichment and the empty search.
   */
  lemma EnrichedListSurvivesEmptySearch(chats: seq<Chat>, current: Uid, users: map<Uid, UserDoc>)
    requires forall c :: c in chats ==> HasUsableCounterpart(c, current)
    ensures Filter(Enrich(chats, current, users), "") == Enrich(chats, current, users)
  {
    var e := Enrich(chats, current, users);
    forall i | 0 <= i < |e| ensures Keep(e[i], "") {
      assert chats[i] in chats;
      EnrichedNameNonEmpty(chats[i], current, users);
      KeepEmptyTerm(e[i]);
    }
    FilterAllKept(e, c => Keep(c, ""));
  }
}
