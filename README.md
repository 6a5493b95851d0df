# Chat client core: chat list, chat creation and message composer

A model of the logic inside the two client components of a one-to-one chat application
built on Firebase:

- **The sidebar** (`Sidebar.tsx`). The chats of the signed-in user are enriched with the
  display name and avatar of their counterpart (the first member who is not the current
  user), falling back to `"Unknown User"` and `"/profile-user.svg"`. The list shown is
  filtered by the search box: a case-insensitive substring match on `name` that also drops
  unnamed chats. `startChat` looks through the current user's chats for one that already
  contains the target and creates `{members: [current, target], last_msg: ""}` only when
  there is none. Nothing rejects a chat with oneself.
- **The conversation pane** (`ChatRoom.tsx`). A local message list, the draft being typed
  and the selected file. `sendMessage` refuses a send when the trimmed draft is empty and
  no file is selected. Otherwise it appends `{text, sender: "me", file?}` and clears the
  draft and the file. `handleFileChange` selects the first file of the input's file list.

Modules:

- `Wrappers`: `Option`.
- `Strings`: ECMAScript `trim` (its WhiteSpace and LineTerminator characters),
  `toLowerCase` restricted to ASCII letters, and `includes`.
- `Seqs`: `filter` on sequences and its guarantees (order-preserving subsequence,
  membership, multiplicities, idempotence, concatenation).
- `ChatList`: chat and user records, counterpart, enrichment and the search filter.
- `ChatStore`: the `chats`/`users` collections as a `Store` class and `startChat` as its
  method. The decision is specified by `StartOutcomeOf`/`AfterStart`, and the lemmas
  about the decision are stated over those functions.
- `Composer`: the `Conversation` class with `messages`, `draft` and `file`.

Foreign values are parameters. These are the signed-in uid (`Option<Uid>`), the document
id and server timestamp that `addDoc` assigns, and the URL that `URL.createObjectURL`
returns. JavaScript falsiness is followed throughout: a counterpart uid of `""` counts as
no counterpart, a missing user document, a missing field and `""` all fall back to the
defaults, and a chat whose `name` is `""` is filtered out.

The code does not do the following, and the model follows the code:

- self-chat is not rejected;
- a sender's membership in the chat is not checked;
- messages are not ordered by server timestamp;
- a chat's last-message preview is never updated;
- `filter(list, "")` drops unnamed chats instead of returning the list unchanged.

The duplicate-chat race of check-then-create is kept as it is. Only sequential calls are
modelled.

## Model

| member | source | states |
|---|---|---|
| `Strings.TrimStart` | src/Components/ChatRoom/ChatRoom.tsx:18 | the result is the suffix left after removing every leading ECMAScript whitespace character, and does not itself start with whitespace |
| `Strings.TrimEnd` | src/Components/ChatRoom/ChatRoom.tsx:18 | the result is the prefix left after removing every trailing whitespace character, and does not itself end with whitespace |
| `Strings.Trim` | src/Components/ChatRoom/ChatRoom.tsx:18 | `trim` returns a slice of its input with only whitespace outside it, and the slice neither starts nor ends with whitespace |
| `Strings.TrimEmptyIff` | src/Components/ChatRoom/ChatRoom.tsx:18 | `trim(s) === ""` holds exactly when every character of `s` is whitespace |
| `Strings.Lower` | src/Components/ChatRoom/Sidebar.tsx:99 | `toLowerCase` keeps the length and maps each character by ASCII case folding |
| `Strings.LowerIdempotent` | src/Components/ChatRoom/Sidebar.tsx:99 | lower-casing twice equals lower-casing once |
| `Strings.LowerHasNoUpper` | src/Components/ChatRoom/Sidebar.tsx:99 | no ASCII upper-case letter remains after lower-casing |
| `Strings.Includes` | src/Components/ChatRoom/Sidebar.tsx:99 | `hay.includes(needle)` is true exactly when `needle` occurs at some position of `hay` |
| `Strings.IncludesEmpty` | src/Components/ChatRoom/Sidebar.tsx:99 | every string includes the empty string |
| `Seqs.FilterBy` | src/Components/ChatRoom/Sidebar.tsx:97-100 | `filter` returns no more elements than its input, and each one is an input element that satisfies the predicate |
| `Seqs.FilterIsSubsequence` | src/Components/ChatRoom/Sidebar.tsx:97-100 | `filter` returns an order-preserving subsequence of its input |
| `Seqs.FilterCounts` | src/Components/ChatRoom/Sidebar.tsx:97-100 | `filter` keeps each accepted element as often as the input holds it, and drops each rejected one entirely |
| `ChatList.Counterpart` | src/Components/ChatRoom/Sidebar.tsx:71-73 | the result is absent iff every member is the current user; otherwise it is a member other than the current user, and every member before it is the current user |
| `ChatList.DisplayName` | src/Components/ChatRoom/Sidebar.tsx:81 | the name is the counterpart's stored name when the user document exists and the name is non-empty, and `"Unknown User"` otherwise; it is never empty |
| `ChatList.DisplayImg` | src/Components/ChatRoom/Sidebar.tsx:82 | the image is the counterpart's stored image when the user document exists and the image is non-empty, and `"/profile-user.svg"` otherwise; it is never empty |
| `ChatList.EnrichChat` | src/Components/ChatRoom/Sidebar.tsx:70-84 | enrichment keeps `id`, `members`, `createdAt` and `last_msg` unchanged |
| `ChatList.Enrich` | src/Components/ChatRoom/Sidebar.tsx:69-85 | enrichment yields one chat per input chat, at the same position, with `id`, `members`, `createdAt` and `last_msg` unchanged |
| `ChatList.EnrichChatFields` | src/Components/ChatRoom/Sidebar.tsx:74-83 | without a usable counterpart the chat is returned unchanged; otherwise `name`/`img` are the counterpart's stored values when the record exists and the value is non-empty, else `"Unknown User"` / `"/profile-user.svg"` |
| `ChatList.EnrichedNameNonEmpty` | src/Components/ChatRoom/Sidebar.tsx:71-83 | an enriched chat has a non-empty name iff its counterpart exists and is not `""`, or it already carried a non-empty name |
| `ChatList.Keep` | src/Components/ChatRoom/Sidebar.tsx:98-99 | the search test on one chat (a truthy name that contains the term case-insensitively); no contract of its own, specified by `ChatList.FilterSpec` and `ChatList.KeepEmptyTerm` |
| `ChatList.Filter` | src/Components/ChatRoom/Sidebar.tsx:97-100 | the filtered list is no longer than the chats and holds only chats that pass the search test; its full specification is `ChatList.FilterSpec` |
| `ChatList.FilterSpec` | src/Components/ChatRoom/Sidebar.tsx:97-100 | the filtered list is an order-preserving subsequence of the chats; a chat is in it iff it is in the input and has a non-empty name that contains the term case-insensitively; multiplicities are kept |
| `ChatList.KeepEmptyTerm` | src/Components/ChatRoom/Sidebar.tsx:97-100 | with an empty search term a chat passes iff it has a non-empty name |
| `ChatList.FilterEmptyTerm` | src/Components/ChatRoom/Sidebar.tsx:97-100 | the empty search returns exactly the named chats, in order: unnamed chats are still dropped |
| `ChatList.FilterIgnoresTermCase` | src/Components/ChatRoom/Sidebar.tsx:99 | searching for the lower-cased term gives the same list as searching for the term |
| `ChatList.FilterIdempotentTerm` | src/Components/ChatRoom/Sidebar.tsx:97-100 | filtering the filtered list again with the same term changes nothing |
| `ChatList.EnrichedListSurvivesEmptySearch` | src/Components/ChatRoom/Sidebar.tsx:69-100 | when every chat has a counterpart with a non-empty uid, the empty search keeps the whole enriched list |
| `ChatStore.ScanSnapshot` | src/Components/ChatRoom/Sidebar.tsx:127-134 | the `forEach` loop sets `chatExists` iff some chat of the snapshot has the target among its members |
| `ChatStore.ChatsOf` | src/Components/ChatRoom/Sidebar.tsx:121-124 | the `array-contains` query returns no more chats than the collection holds, and a chat is in the result iff it is in the collection and has the user among its members |
| `ChatStore.QueryThenScan` | src/Components/ChatRoom/Sidebar.tsx:121-134 | scanning the current user's chats for the target finds a chat iff some chat contains both users |
| `ChatStore.NewChat` | src/Components/ChatRoom/Sidebar.tsx:144-148 | the `addDoc` payload; no contract of its own, specified by the creation clause of `ChatStore.Store.StartChat` (members `[current, target]`, empty `last_msg`, server timestamp) |
| `ChatStore.StartOutcomeOf` | src/Components/ChatRoom/Sidebar.tsx:114-148 | the decision of `startChat`; no contract of its own, specified by `ChatStore.Store.StartChat`, `ChatStore.StartChatTwiceAddsNothing` and `ChatStore.SelfChatOutcome` |
| `ChatStore.AfterStart` | src/Components/ChatRoom/Sidebar.tsx:144-148 | the chats collection after a call: the created chat appended by `addDoc`, or the collection unchanged; no contract of its own, specified by `ChatStore.Store.StartChat` |
| `ChatStore.Store.StartChat` | src/Components/ChatRoom/Sidebar.tsx:110-154 | with no signed-in user the store is unchanged; if some chat contains both users nothing is added; otherwise exactly one chat `[current, target]` with empty `last_msg` is appended and the rest stay as they were; afterwards a chat between the two exists; `users` never changes |
| `ChatStore.HasChatBetweenSymmetric` | src/Components/ChatRoom/Sidebar.tsx:131 | a chat exists between A and B iff one exists between B and A |
| `ChatStore.StartChatTwiceAddsNothing` | src/Components/ChatRoom/Sidebar.tsx:129-148 | after `startChat(A, B)`, a further `startChat(A, B)` or `startChat(B, A)` reports an existing chat and adds none |
| `ChatStore.SelfChatOutcome` | src/Components/ChatRoom/Sidebar.tsx:121-148 | `startChat(u, u)` reports an existing chat iff `u` belongs to any chat, and otherwise creates a chat with members `[u, u]` |
| `ChatStore.StartChatKeepsPairsUnique` | src/Components/ChatRoom/Sidebar.tsx:127-148 | if no two chats share a pair of distinct members before a sequential `startChat`, none do after it |
| `ChatStore.ChatListing` | src/Components/ChatRoom/Sidebar.tsx:56-100 | the list the sidebar shows (query, enrichment, search filter); no contract of its own, specified by `ChatStore.ChatListingSpec`, `ChatStore.CreatedChatIsListed` and `ChatStore.SelfChatNeverListed` |
| `ChatStore.ChatListingSpec` | src/Components/ChatRoom/Sidebar.tsx:56-100 | a chat is listed iff it is the enrichment of a chat that has the user among its members and it passes the search: every listed chat passes the search and comes from one of the user's chats, and each of the user's chats is listed, once enriched, iff the enriched chat passes the search |
| `ChatStore.Store.Listing` | src/Components/ChatRoom/Sidebar.tsx:56-100 | the sidebar list over the store's own `chats` and `users`: a chat is in it iff it is the enrichment of one of the user's chats and passes the search (only such chats are listed, and each of them is) |
| `ChatStore.CreatedChatIsListed` | src/Components/ChatRoom/Sidebar.tsx:56-100 | a chat newly created between two different users appears in the creator's enriched list under an empty search, named after the counterpart |
| `ChatStore.SelfChatNeverListed` | src/Components/ChatRoom/Sidebar.tsx:71-100 | a `[u, u]` chat has no counterpart, stays unnamed after enrichment, and no search term lets it through |
| `Composer.Accepts` | src/Components/ChatRoom/ChatRoom.tsx:18 | the acceptance test of `sendMessage`; no contract of its own, specified by `Composer.AcceptsIff` and `Composer.WhitespaceDraft` |
| `Composer.AcceptsIff` | src/Components/ChatRoom/ChatRoom.tsx:18 | a send is accepted iff a file is selected or the draft holds a non-whitespace character |
| `Composer.WhitespaceDraft` | src/Components/ChatRoom/ChatRoom.tsx:18 | a whitespace-only draft is accepted with a file selected and refused without one |
| `Composer.Outgoing` | src/Components/ChatRoom/ChatRoom.tsx:19 | the appended message is from `"me"`, carries the untrimmed draft, and has a file reference iff a file was selected, that reference being the file's object URL |
| `Composer.Conversation.constructor` | src/Components/ChatRoom/ChatRoom.tsx:6-12 | the conversation starts with the three seed messages, an empty draft and no file |
| `Composer.Conversation.SetDraft` | src/Components/ChatRoom/ChatRoom.tsx:63 | typing replaces the draft and leaves messages and file unchanged |
| `Composer.Conversation.SendMessage` | src/Components/ChatRoom/ChatRoom.tsx:17-22 | a refused send changes neither messages, draft nor file; an accepted send appends exactly one message, keeps the old messages as a prefix, and leaves the draft `""` with no file selected |
| `Composer.Conversation.HandleFileChange` | src/Components/ChatRoom/ChatRoom.tsx:26-30 | with a file list the file becomes its first entry, or none if the list is empty; without a list the file is unchanged; messages and draft never change |

## Left out

- Live subscriptions: the `onSnapshot` listeners for users and chats and their unsubscribe cleanup (Sidebar.tsx:44-95). Only the enrichment and filter applied to one snapshot are modelled, in `ChatStore.ChatListing`.
- Firestore and Auth calls (`getDocs`, `getDoc`, `addDoc`, `serverTimestamp`, `auth.currentUser`). They become the in-memory `Store` and explicit parameters. A failing `getDoc` rejects the whole `Promise.all`, so that snapshot never reaches the list. Store failures are not modelled.
- Firestore query order: `ChatsOf` returns the chats in store order.
- The `id` set from the document id is assumed not to be overridden by an `id` field inside the document data (Sidebar.tsx:63-66).
- The check-then-create race between two concurrent `startChat` calls (Sidebar.tsx:126-148). This is concurrency, so only sequential calls are modelled. `StartChatKeepsPairsUnique` holds for sequential calls only.
- `startChat` uses only the target's `uid`; the rest of the user record it receives is ignored.
- Side effects: `alert`, `console.log`/`console.error`, `router.push` (Sidebar.tsx:107), and the catch-all that swallows errors (Sidebar.tsx:151-153). The alerts correspond to the `AlreadyExists` and `Created` outcomes.
- `URL.createObjectURL` is an opaque string passed to `SendMessage`.
- Strings.Lower: folds only the ASCII letters A-Z, whereas JavaScript's `toLowerCase` applies full Unicode case mapping.
- Strings.IsWhitespace follows the ECMAScript WhiteSpace and LineTerminator sets, with the space-separator category fixed at its current members.
- UI state and rendering: the modal and sidebar toggles (Sidebar.tsx:102-104), the user selector (ChatRoom.tsx:13-15), the loading flag and all JSX.
- The sign-up and sign-in forms and the page layout only call Firebase or render; they are not part of this model.
