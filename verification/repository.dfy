/**
 The state transitions hidden in the repository facade, with the managed backend
 replaced by an in-memory `Store`. Everything the backend decides on its own
 (whether a read or query succeeds, the order of query results, tokens, clocks,
 generated ids) is an input.
 */
module Repository {
  import opened Models
  import ExpenseListUtils

  /** Result code for a created list. */
  const ResultSuccess: int := 0
  /** Result code for an invited user that could not be found. */
  const ResultUserNotFound: int := -1

  /** Fallback username when the account has neither a display name nor an email. */
  const UnknownUserName: string := "unknown"

  /** An expense list document together with its sub-collection of expenses. */
  datatype ListDoc = ListDoc(list: ExpenseList, expenses: seq<Expense>)

  /** The documents of the backend: users by user id, expense lists by position. */
  datatype Store = Store(users: map<string, User>, lists: seq<ListDoc>)

  // ---------------------------------------------------------------- text

  /** Lower-case one character (the ASCII letters; every other character is kept). */
  function LowerChar(c: char): char
  {
    if 'A' <= c <= 'Z' then (c as int + 32) as char else c
  }

  /** Lower-case a string character by character. */
  function ToLower(s: string): (r: string)
    ensures |r| == |s|
    ensures forall i :: 0 <= i < |s| ==> r[i] == LowerChar(s[i])
    ensures forall i :: 0 <= i < |r| ==> !('A' <= r[i] <= 'Z')
    decreases |s|
  {
    if s == [] then [] else [LowerChar(s[0])] + ToLower(s[1..])
  }

  /** Lower-casing twice is lower-casing once. */
  lemma ToLowerIdempotent(s: string)
    ensures ToLower(ToLower(s)) == ToLower(s)
  {
  }

  // ---------------------------------------------------------------- users

  /** The username chosen for a new user document. */
  function UserName(user: AuthUser): (name: string)
    ensures user.displayName.Some? && user.displayName.value != [] ==> name == user.displayName.value
    ensures (user.displayName.None? || user.displayName.value == []) && user.email.Some?
            ==> name == user.email.value
    ensures (user.displayName.None? || user.displayName.value == []) && user.email.None?
            ==> name == UnknownUserName
    ensures name == [] ==> user.email == Some([])
  {
    if user.displayName.Some? && user.displayName.value != [] then user.displayName.value
    else if user.email.Some? then user.email.value
    else UnknownUserName
  }

  /** What checking the signed-in user did to the user collection. */
  datatype UserEffect =
    | NotAuthenticated       // no signed-in user: returns at once
    | NoToken                // the messaging token was not delivered
    | CrashedOnMissingEmail  // the email is dereferenced unconditionally
    | ReadFailed             // reading the user document failed
    | Created                // the user document was absent and is written
    | TokenRefreshed         // the stored token was absent or stale and is rewritten
    | Unchanged              // the stored token is current: nothing is written

  datatype UserCheck = UserCheck(users: map<string, User>, effect: UserEffect)

  /** The document written for a user seen for the first time. */
  function NewUserDoc(user: AuthUser, token: string, serverTime: int): User
    requires user.email.Some?
  {
    User(ToLower(user.email.value), UserName(user), Some(token), serverTime, serverTime)
  }

  /**
   Create the user document of the signed-in user when it is absent; otherwise
   rewrite it only when its token differs from the current one. `token` is None
   when the messaging platform never delivers a token, `readOk` says whether
   reading the user document succeeded, `serverTime` fills the server-assigned
   timestamps and `deviceTime` is the device clock used for `modified`.
   */
  function CheckNewUser(users: map<string, User>, auth: Option<AuthUser>, token: Option<string>,
                        readOk: bool, serverTime: int, deviceTime: int): (r: UserCheck)
    ensures r.effect == Created
            <==> auth.Some? && token.Some? && auth.value.email.Some? && readOk && auth.value.uid !in users
    ensures r.effect == TokenRefreshed
            <==> auth.Some? && token.Some? && auth.value.email.Some? && readOk && auth.value.uid in users
                 && users[auth.value.uid].fcmToken != token
    ensures r.effect == NotAuthenticated <==> auth.None?
    ensures r.effect == NoToken <==> auth.Some? && token.None?
    ensures r.effect == CrashedOnMissingEmail <==> auth.Some? && token.Some? && auth.value.email.None?
    ensures r.effect == ReadFailed <==> auth.Some? && token.Some? && auth.value.email.Some? && !readOk
    ensures r.effect != Created && r.effect != TokenRefreshed ==> r.users == users
    ensures forall id :: id in users && (auth.None? || id != auth.value.uid) ==> id in r.users && r.users[id] == users[id]
    ensures auth.Some? ==> r.users.Keys <= users.Keys + {auth.value.uid}
  {
    if auth.None? then UserCheck(users, NotAuthenticated)
    else if token.None? then UserCheck(users, NoToken)
    else if auth.value.email.None? then UserCheck(users, CrashedOnMissingEmail)
    else if !readOk then UserCheck(users, ReadFailed)
    else
      var uid := auth.value.uid;
      if uid !in users then
        UserCheck(users[uid := NewUserDoc(auth.value, token.value, serverTime)], Created)
      else if users[uid].fcmToken.None? || users[uid].fcmToken.value != token.value then
        UserCheck(users[uid := users[uid].(fcmToken := token, modified := deviceTime)], TokenRefreshed)
      else
        UserCheck(users, Unchanged)
  }

  /**
   A created user document holds the lower-cased email, the chosen username and the
   token; that username is the display name or the email, never the fallback.
   */
  lemma NewUserDocument(users: map<string, User>, auth: Option<AuthUser>, token: Option<string>,
                        readOk: bool, serverTime: int, deviceTime: int)
    requires CheckNewUser(users, auth, token, readOk, serverTime, deviceTime).effect == Created
    ensures var r := CheckNewUser(users, auth, token, readOk, serverTime, deviceTime);
            && r.users.Keys == users.Keys + {auth.value.uid}
            && r.users[auth.value.uid].mail == ToLower(auth.value.email.value)
            && r.users[auth.value.uid].username == UserName(auth.value)
            && r.users[auth.value.uid].fcmToken == token
            && r.users[auth.value.uid].created == serverTime
            && r.users[auth.value.uid].modified == serverTime
            && ((auth.value.displayName.Some? && r.users[auth.value.uid].username == auth.value.displayName.value)
                || r.users[auth.value.uid].username == auth.value.email.value)
            && (forall id :: id in users ==> r.users[id] == users[id])
  {
  }

  /** An existing user keeps mail, username and creation time; only token and `modified` change. */
  lemma ExistingUserKeepsProfile(users: map<string, User>, auth: Option<AuthUser>, token: Option<string>,
                                 readOk: bool, serverTime: int, deviceTime: int)
    requires auth.Some? && auth.value.uid in users
    ensures var r := CheckNewUser(users, auth, token, readOk, serverTime, deviceTime);
            var before := users[auth.value.uid];
            && r.users.Keys == users.Keys
            && r.users[auth.value.uid].(fcmToken := before.fcmToken, modified := before.modified) == before
            && (r.users[auth.value.uid] != before ==> before.fcmToken != token && r.users[auth.value.uid].modified == deviceTime)
  {
  }

  /** After a check that got a token, an email and a readable document, the stored token is current. */
  lemma CheckedUserHasCurrentToken(users: map<string, User>, auth: Option<AuthUser>, token: Option<string>,
                                   serverTime: int, deviceTime: int)
    requires auth.Some? && token.Some? && auth.value.email.Some?
    ensures var r := CheckNewUser(users, auth, token, true, serverTime, deviceTime);
            auth.value.uid in r.users && r.users[auth.value.uid].fcmToken == token
  {
  }

  /** Checking the same user again with the same token writes nothing. */
  lemma CheckNewUserIdempotent(users: map<string, User>, auth: Option<AuthUser>, token: Option<string>,
                               readOk: bool, serverTime: int, deviceTime: int, serverTime': int, deviceTime': int)
    ensures var r1 := CheckNewUser(users, auth, token, readOk, serverTime, deviceTime);
            var r2 := CheckNewUser(r1.users, auth, token, readOk, serverTime', deviceTime');
            r2.users == r1.users
  {
  }

  /**
   Without an email the check stops before any write, so the "unknown" fallback
   username is never stored by it (a created document's name is the display name
   or the email, see `NewUserDocument`).
   */
  lemma NoEmailNoWrite(users: map<string, User>, auth: Option<AuthUser>, token: Option<string>,
                       readOk: bool, serverTime: int, deviceTime: int)
    requires auth.Some? && auth.value.email.None?
    ensures var r := CheckNewUser(users, auth, token, readOk, serverTime, deviceTime);
            r.users == users
  {
  }

  // ---------------------------------------------------------------- lookup

  /** A stored user answers an invite when its stored mail equals the lower-cased invite. */
  predicate MatchesInvite(user: User, invite: string)
  {
    user.mail == ToLower(invite)
  }

  /** The ids of the users whose mail equals `mail`, in the backend's result order `order`. */
  function FindUsersByMail(users: map<string, User>, mail: string, order: seq<string>): (ids: seq<string>)
    requires Elems(order) <= users.Keys
    ensures forall id :: id in ids <==> id in order && users[id].mail == mail
    ensures ids != [] ==> exists j :: 0 <= j < |order| && order[j] == ids[0]
                                      && forall i :: 0 <= i < j ==> users[order[i]].mail != mail
    decreases |order|
  {
    if order == [] then []
    else
      var rest := FindUsersByMail(users, mail, order[1..]);
      if users[order[0]].mail == mail then [order[0]] + rest
      else
        assert rest != [] ==> exists j :: 0 <= j < |order| && order[j] == rest[0]
                                          && forall i :: 0 <= i < j ==> users[order[i]].mail != mail by {
          if rest != [] {
            var j' :| 0 <= j' < |order[1..]| && order[1..][j'] == rest[0]
                      && forall i :: 0 <= i < j' ==> users[order[1..][i]].mail != mail;
            assert order[j' + 1] == rest[0];
            forall i | 0 <= i < j' + 1 ensures users[order[i]].mail != mail {
              if i > 0 {
                assert order[i] == order[1..][i - 1];
              }
            }
          }
        }
        rest
  }

  /**
   A user document written by the check is found by any invite that lower-cases
   to the same text as the account's email, and by no other invite; in particular
   the stored mail itself, as an invite, finds it.
   */
  lemma InviteMatchIsCaseInsensitive(users: map<string, User>, auth: Option<AuthUser>, token: Option<string>,
                                     readOk: bool, serverTime: int, deviceTime: int, invite: string)
    requires CheckNewUser(users, auth, token, readOk, serverTime, deviceTime).effect == Created
    ensures var r := CheckNewUser(users, auth, token, readOk, serverTime, deviceTime);
            && (MatchesInvite(r.users[auth.value.uid], invite) <==> ToLower(invite) == ToLower(auth.value.email.value))
            && MatchesInvite(r.users[auth.value.uid], r.users[auth.value.uid].mail)
  {
    ToLowerIdempotent(auth.value.email.value);
  }

  // ---------------------------------------------------------------- lists

  /** The list written for `me` and the invited user: both sharers start with a zero summary. */
  function NewExpenseList(listName: string, me: string, invited: string, serverTime: int): (l: ExpenseList)
    ensures Elems(l.sharers) == l.sharerInfo.Keys
    ensures forall u :: u in l.sharerInfo ==> l.sharerInfo[u] == ZeroSummary
  {
    ExpenseList(listName, [me, invited], map[me := ZeroSummary, invited := ZeroSummary], serverTime, serverTime)
  }

  /** The store after creating a list and the result code reported to the caller, if any. */
  datatype CreateResult = CreateResult(store: Store, callback: Option<int>)

  /**
   Create a list shared by the signed-in user and the user whose mail is the
   lower-cased invite. `queryOk` says whether the backend query succeeded and
   `order` is the order in which it returns the user documents.
   */
  function CreateNewExpenseList(store: Store, auth: Option<AuthUser>, listName: string, invite: string,
                                queryOk: bool, order: seq<string>, serverTime: int): (r: CreateResult)
    requires Elems(order) == store.users.Keys
    ensures r.store.users == store.users
    ensures auth.None? ==> r == CreateResult(store, None)
    ensures r.callback == Some(ResultSuccess) <==> |r.store.lists| == |store.lists| + 1
    ensures r.callback == Some(ResultSuccess) || r.store == store
    ensures r.callback.Some? ==> r.callback.value == ResultSuccess || r.callback.value == ResultUserNotFound
    ensures auth.Some? && (!queryOk || forall id :: id in store.users ==> !MatchesInvite(store.users[id], invite))
            ==> r == CreateResult(store, Some(ResultUserNotFound))
    ensures r.callback == Some(ResultUserNotFound)
            ==> auth.Some? && (!queryOk || forall id :: id in store.users ==> !MatchesInvite(store.users[id], invite))
    ensures auth.Some? && queryOk
            && (var found := FindUsersByMail(store.users, ToLower(invite), order);
                found != [] && found[0] != auth.value.uid)
            ==> r.callback == Some(ResultSuccess)
  {
    if auth.None? then CreateResult(store, None)
    else
      var found := FindUsersByMail(store.users, ToLower(invite), order);
      if queryOk && found != [] then
        var me := auth.value.uid;
        assert found[0] in found;
        if found[0] != me then
          var list := NewExpenseList(listName, me, found[0], serverTime);
          CreateResult(store.(lists := store.lists + [ListDoc(list, [])]), Some(ResultSuccess))
        else
          CreateResult(store, None)
      else
        CreateResult(store, Some(ResultUserNotFound))
  }

  /**
   On success exactly one list is appended: its sharers are [me, invited] in that
   order, the invited user is another user whose mail matches the invite, both
   summaries are zero and it has no expenses yet.
   */
  lemma CreatedListShape(store: Store, auth: Option<AuthUser>, listName: string, invite: string,
                         queryOk: bool, order: seq<string>, serverTime: int)
    requires Elems(order) == store.users.Keys
    requires CreateNewExpenseList(store, auth, listName, invite, queryOk, order, serverTime).callback == Some(ResultSuccess)
    ensures var r := CreateNewExpenseList(store, auth, listName, invite, queryOk, order, serverTime);
            var doc := r.store.lists[|store.lists|];
            && auth.Some? && queryOk
            && r.store.lists[..|store.lists|] == store.lists
            && doc.expenses == []
            && doc.list.listName == listName
            && doc.list.created == serverTime
            && doc.list.modified == serverTime
            && |doc.list.sharers| == 2
            && doc.list.sharers[0] == auth.value.uid
            && doc.list.sharers[1] == FindUsersByMail(store.users, ToLower(invite), order)[0]
            && doc.list.sharers[1] != auth.value.uid
            && doc.list.sharers[1] in store.users
            && MatchesInvite(store.users[doc.list.sharers[1]], invite)
            && doc.list.sharerInfo.Keys == Elems(doc.list.sharers)
            && doc.list.sharerInfo[doc.list.sharers[0]] == ZeroSummary
            && doc.list.sharerInfo[doc.list.sharers[1]] == ZeroSummary
  {
    var found := FindUsersByMail(store.users, ToLower(invite), order);
    assert found[0] in found;
  }

  /** Inviting oneself creates nothing and reports nothing at all. */
  lemma SelfInviteIsSilent(store: Store, auth: Option<AuthUser>, listName: string, invite: string,
                           order: seq<string>, serverTime: int)
    requires Elems(order) == store.users.Keys
    requires auth.Some?
    requires var found := FindUsersByMail(store.users, ToLower(invite), order);
             found != [] && found[0] == auth.value.uid
    ensures CreateNewExpenseList(store, auth, listName, invite, true, order, serverTime) == CreateResult(store, None)
  {
  }

  // ---------------------------------------------------------------- expenses

  /** Storage paths of the image and its thumbnail, set only when both bitmaps are given. */
  function ImagePaths(hasImage: bool, hasThumbnail: bool, imageId: string, thumbnailId: string)
    : (paths: (Option<string>, Option<string>))
    ensures paths.0.Some? <==> hasImage && hasThumbnail
    ensures paths.1.Some? <==> hasImage && hasThumbnail
    ensures paths.0.Some? ==> paths.0.value == "images/" + imageId + ".jpeg"
    ensures paths.1.Some? ==> paths.1.value == "thumbnails/" + thumbnailId + ".jpeg"
  {
    if hasImage && hasThumbnail then
      (Some("images/" + imageId + ".jpeg"), Some("thumbnails/" + thumbnailId + ".jpeg"))
    else
      (None, None)
  }

  /** The summary of `uid`; a missing entry reads as zero, as the backend's increment does. */
  function SummaryOf(info: map<string, ExpenseSummary>, uid: string): ExpenseSummary
  {
    if uid in info then info[uid] else ZeroSummary
  }

  /**
   Store an expense of the signed-in user in the selected list and, in the same
   batch, increment that user's count by one and sum by `amount`. Nothing happens
   without a signed-in user or when the selected list does not exist (the batch's
   update fails). `imageId` and `thumbnailId` are the generated file names.
   */
  function AddExpense(store: Store, auth: Option<AuthUser>, selected: nat, username: string, amount: real,
                      comment: string, time: int, hasImage: bool, hasThumbnail: bool,
                      imageId: string, thumbnailId: string, serverTime: int): (r: Store)
    ensures auth.None? || selected >= |store.lists| ==> r == store
    ensures r.users == store.users
    ensures |r.lists| == |store.lists|
    ensures forall i :: 0 <= i < |store.lists| && i != selected ==> r.lists[i] == store.lists[i]
  {
    if auth.None? || selected >= |store.lists| then store
    else
      var uid := auth.value.uid;
      var paths := ImagePaths(hasImage, hasThumbnail, imageId, thumbnailId);
      var expense := Expense(uid, username, amount, comment, time, paths.0, paths.1, serverTime);
      var doc := store.lists[selected];
      var info := doc.list.sharerInfo;
      var summary := SummaryOf(info, uid);
      var info' := info[uid := ExpenseSummary(summary.numExpenses + 1, summary.sumExpenses + amount)];
      var doc' := ListDoc(doc.list.(sharerInfo := info'), doc.expenses + [expense]);
      store.(lists := store.lists[selected := doc'])
  }

  /**
   Adding an expense raises the caller's count by one and sum by `amount`, appends
   the expense, and changes no other summary, the sharers or the list's metadata.
   */
  lemma AddExpenseEffect(store: Store, auth: Option<AuthUser>, selected: nat, username: string, amount: real,
                         comment: string, time: int, hasImage: bool, hasThumbnail: bool,
                         imageId: string, thumbnailId: string, serverTime: int)
    requires auth.Some? && selected < |store.lists|
    ensures var r := AddExpense(store, auth, selected, username, amount, comment, time,
                                hasImage, hasThumbnail, imageId, thumbnailId, serverTime);
            var before := store.lists[selected];
            var after := r.lists[selected];
            var uid := auth.value.uid;
            && after.list.sharerInfo.Keys == before.list.sharerInfo.Keys + {uid}
            && after.list.sharerInfo[uid].numExpenses == SummaryOf(before.list.sharerInfo, uid).numExpenses + 1
            && after.list.sharerInfo[uid].sumExpenses == SummaryOf(before.list.sharerInfo, uid).sumExpenses + amount
            && (forall k :: k in before.list.sharerInfo && k != uid ==> after.list.sharerInfo[k] == before.list.sharerInfo[k])
            && after.list.sharers == before.list.sharers
            && after.list.(sharerInfo := before.list.sharerInfo) == before.list
            && |after.expenses| == |before.expenses| + 1
            && after.expenses[..|before.expenses|] == before.expenses
            && after.expenses[|before.expenses|]
               == Expense(uid, username, amount, comment, time,
                          ImagePaths(hasImage, hasThumbnail, imageId, thumbnailId).0,
                          ImagePaths(hasImage, hasThumbnail, imageId, thumbnailId).1, serverTime)
  {
  }

  // ---------------------------------------------------------------- invariant

  /** Number of expenses authored by `uid`. */
  function CountBy(expenses: seq<Expense>, uid: string): int
    decreases |expenses|
  {
    if expenses == [] then 0
    else CountBy(expenses[..|expenses| - 1], uid) + (if expenses[|expenses| - 1].userID == uid then 1 else 0)
  }

  /** Sum of the amounts of the expenses authored by `uid`. */
  function SumBy(expenses: seq<Expense>, uid: string): real
    decreases |expenses|
  {
    if expenses == [] then 0.0
    else SumBy(expenses[..|expenses| - 1], uid) + (if expenses[|expenses| - 1].userID == uid then expenses[|expenses| - 1].amount else 0.0)
  }

  /**
   The invariant of a list document: the summary keys are exactly the sharers,
   every expense is by a sharer, and each summary is the count and sum of that
   sharer's expenses.
   */
  ghost predicate ListConsistent(doc: ListDoc)
  {
    && doc.list.sharerInfo.Keys == Elems(doc.list.sharers)
    && (forall i :: 0 <= i < |doc.expenses| ==> doc.expenses[i].userID in doc.list.sharerInfo)
    && (forall u :: u in doc.list.sharerInfo ==>
          doc.list.sharerInfo[u] == ExpenseSummary(CountBy(doc.expenses, u), SumBy(doc.expenses, u)))
  }

  /** Every list of the store keeps the invariant. */
  ghost predicate StoreConsistent(store: Store)
  {
    forall i :: 0 <= i < |store.lists| ==> ListConsistent(store.lists[i])
  }

  /** A freshly created list keeps the invariant. */
  lemma NewListConsistent(listName: string, me: string, invited: string, serverTime: int)
    ensures ListConsistent(ListDoc(NewExpenseList(listName, me, invited, serverTime), []))
  {
  }

  /** Creating a list keeps every list of the store consistent. */
  lemma CreateKeepsStoreConsistent(store: Store, auth: Option<AuthUser>, listName: string, invite: string,
                                   queryOk: bool, order: seq<string>, serverTime: int)
    requires Elems(order) == store.users.Keys
    requires StoreConsistent(store)
    ensures StoreConsistent(CreateNewExpenseList(store, auth, listName, invite, queryOk, order, serverTime).store)
  {
    var r := CreateNewExpenseList(store, auth, listName, invite, queryOk, order, serverTime);
    if r.callback == Some(ResultSuccess) {
      CreatedListShape(store, auth, listName, invite, queryOk, order, serverTime);
      var found := FindUsersByMail(store.users, ToLower(invite), order);
      NewListConsistent(listName, auth.value.uid, found[0], serverTime);
      forall i | 0 <= i < |r.store.lists| ensures ListConsistent(r.store.lists[i]) {
        if i < |store.lists| {
          assert r.store.lists[i] == store.lists[i];
        }
      }
    }
  }

  /**
   Adding an expense to a consistent list keeps it consistent exactly when the
   caller is one of its sharers; anyone else gains a summary without being a sharer.
   */
  lemma {:induction false} AddExpenseKeepsListConsistent(
    store: Store, auth: Option<AuthUser>, selected: nat, username: string, amount: real,
    comment: string, time: int, hasImage: bool, hasThumbnail: bool,
    imageId: string, thumbnailId: string, serverTime: int)
    requires auth.Some? && selected < |store.lists|
    requires ListConsistent(store.lists[selected])
    ensures var r := AddExpense(store, auth, selected, username, amount, comment, time,
                                hasImage, hasThumbnail, imageId, thumbnailId, serverTime);
            ListConsistent(r.lists[selected]) <==> auth.value.uid in store.lists[selected].list.sharers
  {
    var r := AddExpense(store, auth, selected, username, amount, comment, time,
                        hasImage, hasThumbnail, imageId, thumbnailId, serverTime);
    var before := store.lists[selected];
    var after := r.lists[selected];
    var uid := auth.value.uid;
    AddExpenseEffect(store, auth, selected, username, amount, comment, time,
                     hasImage, hasThumbnail, imageId, thumbnailId, serverTime);
    var es := before.expenses;
    var e := after.expenses[|es|];
    assert after.expenses == es + [e];
    assert after.expenses[..|after.expenses| - 1] == es;
    if uid in before.list.sharers {
      assert uid in Elems(before.list.sharers);
      forall i | 0 <= i < |after.expenses| ensures after.expenses[i].userID in after.list.sharerInfo {
        if i < |es| {
          assert after.expenses[i] == es[i];
        }
      }
      forall u | u in after.list.sharerInfo
        ensures after.list.sharerInfo[u] == ExpenseSummary(CountBy(after.expenses, u), SumBy(after.expenses, u))
      {
        assert CountBy(after.expenses, u) == CountBy(es, u) + (if u == uid then 1 else 0);
        assert SumBy(after.expenses, u) == SumBy(es, u) + (if u == uid then amount else 0.0);
      }
    } else {
      assert uid !in Elems(before.list.sharers);
      assert uid in after.list.sharerInfo.Keys;
    }
  }

  /** A store stays consistent when every expense is added by a sharer of the selected list. */
  lemma AddExpenseKeepsStoreConsistent(
    store: Store, auth: Option<AuthUser>, selected: nat, username: string, amount: real,
    comment: string, time: int, hasImage: bool, hasThumbnail: bool,
    imageId: string, thumbnailId: string, serverTime: int)
    requires StoreConsistent(store)
    requires auth.Some? && selected < |store.lists| ==> auth.value.uid in store.lists[selected].list.sharers
    ensures StoreConsistent(AddExpense(store, auth, selected, username, amount, comment, time,
                                       hasImage, hasThumbnail, imageId, thumbnailId, serverTime))
  {
    if auth.Some? && selected < |store.lists| {
      AddExpenseKeepsListConsistent(store, auth, selected, username, amount, comment, time,
                                    hasImage, hasThumbnail, imageId, thumbnailId, serverTime);
    }
  }

  /**
   In a consistent list of two sharers, the balance the app shows is what the
   user paid minus what the other sharer paid, over the stored expenses.
   */
  lemma TwoSharerBalanceFromExpenses(doc: ListDoc, u: string, v: string, order: seq<string>)
    requires ListConsistent(doc)
    requires u != v && doc.list.sharers == [u, v]
    requires ExpenseListUtils.IsIterationOrder(order, doc.list.sharerInfo)
    ensures ExpenseListUtils.GetExpenseDifferenceFor(u, doc.list, order)
            == SumBy(doc.expenses, u) - SumBy(doc.expenses, v)
  {
    assert Elems(doc.list.sharers) == {u, v};
    ExpenseListUtils.TwoSharerBalances(doc.list, u, v, order, order);
  }
}
