/**
 The screen logic for creating a list: validate the two inputs, forward them to
 the repository, and turn the repository's result code into what the screen shows.
 */
module AddExpenseListViewModel {
  import opened Models
  import Repository

  const NameEmptyMessage: string := "The lists name cannot be empty!"
  const InviteEmptyMessage: string := "Enter the email of the person you want to invite."
  const UserMissingMessage: string := "The user you want to share with doesn't exist."

  /** What validation decides: post an error, or forward the request to the repository. */
  datatype Decision = ShowError(message: string) | Forward(listName: string, invite: string)

  /** Validate a request: the name is checked first, then the invite. */
  function CreateExpenseList(listName: string, invite: string): (d: Decision)
    ensures d.Forward? <==> listName != [] && invite != []
    ensures d.Forward? ==> d.listName == listName && d.invite == invite
    ensures d.ShowError? ==> d.message == NameEmptyMessage || d.message == InviteEmptyMessage
    ensures d == ShowError(NameEmptyMessage) <==> listName == []
    ensures d == ShowError(InviteEmptyMessage) <==> listName != [] && invite == []
  {
    if listName == [] then ShowError(NameEmptyMessage)
    else if invite == [] then ShowError(InviteEmptyMessage)
    else Forward(listName, invite)
  }

  /** The latest values posted to the screen's two observable fields. */
  datatype ScreenState = ScreenState(errorMessage: Option<string>, operationSuccessful: Option<bool>)

  /** The screen before anything was posted. */
  const InitialScreen: ScreenState := ScreenState(None, None)

  /** React to a result code from the repository: 0 is success, anything else an error. */
  function ReportResult(screen: ScreenState, resultCode: int): (s: ScreenState)
    ensures s.operationSuccessful != screen.operationSuccessful ==> resultCode == Repository.ResultSuccess
    ensures resultCode == Repository.ResultSuccess
            ==> s.operationSuccessful == Some(true) && s.errorMessage == screen.errorMessage
    ensures resultCode != Repository.ResultSuccess
            ==> s.errorMessage == Some(UserMissingMessage) && s.operationSuccessful == screen.operationSuccessful
  {
    if resultCode == 0 then screen.(operationSuccessful := Some(true))
    else screen.(errorMessage := Some(UserMissingMessage))
  }

  /**
   One submission of the form: validation, then the repository call, then the
   callback if the repository fires one.
   */
  function Submit(store: Repository.Store, auth: Option<AuthUser>, screen: ScreenState,
                  listName: string, invite: string, queryOk: bool, order: seq<string>,
                  serverTime: int): (r: (Repository.Store, ScreenState))
    requires Elems(order) == store.users.Keys
    ensures CreateExpenseList(listName, invite).ShowError?
            ==> r == (store, screen.(errorMessage := Some(CreateExpenseList(listName, invite).message)))
    ensures CreateExpenseList(listName, invite).Forward?
            ==> var result := Repository.CreateNewExpenseList(store, auth, listName, invite, queryOk, order, serverTime);
                && r.0 == result.store
                && r.1 == (if result.callback.Some? then ReportResult(screen, result.callback.value) else screen)
    ensures r.0.users == store.users
  {
    match CreateExpenseList(listName, invite)
    case ShowError(message) => (store, screen.(errorMessage := Some(message)))
    case Forward(name, mail) =>
      var result := Repository.CreateNewExpenseList(store, auth, name, mail, queryOk, order, serverTime);
      if result.callback.Some? then (result.store, ReportResult(screen, result.callback.value))
      else (result.store, screen)
  }

  /**
   From a fresh screen, success is shown exactly when a list was created, an
   error and success are never shown together, and the missing-user error is
   shown exactly when a valid request got result code -1.
   */
  lemma SubmitFromInitialScreen(store: Repository.Store, auth: Option<AuthUser>,
                                listName: string, invite: string, queryOk: bool, order: seq<string>,
                                serverTime: int)
    requires Elems(order) == store.users.Keys
    ensures var r := Submit(store, auth, InitialScreen, listName, invite, queryOk, order, serverTime);
            && (r.1.operationSuccessful == Some(true) <==> |r.0.lists| == |store.lists| + 1)
            && (r.1.operationSuccessful.Some? ==> r.1.errorMessage.None?)
            && (r.1.errorMessage == Some(UserMissingMessage)
                <==> listName != [] && invite != []
                     && Repository.CreateNewExpenseList(store, auth, listName, invite, queryOk, order, serverTime).callback
                        == Some(Repository.ResultUserNotFound))
  {
  }

  /** Inviting oneself with a valid form changes nothing on the screen or in the store. */
  lemma SelfInviteShowsNothing(store: Repository.Store, auth: Option<AuthUser>, screen: ScreenState,
                               listName: string, invite: string, order: seq<string>, serverTime: int)
    requires Elems(order) == store.users.Keys
    requires listName != [] && invite != [] && auth.Some?
    requires var found := Repository.FindUsersByMail(store.users, Repository.ToLower(invite), order);
             found != [] && found[0] == auth.value.uid
    ensures Submit(store, auth, screen, listName, invite, true, order, serverTime) == (store, screen)
  {
    Repository.SelfInviteIsSilent(store, auth, listName, invite, order, serverTime);
  }
}
