/** The module-level state every copy of the client script keeps: the
    signed-in identity, the ledger and the chat history. The auth observer
    sets or clears it; the two snapshot listeners replace the lists. */
module Session {
  import opened Wrappers
  import opened Ledger
  import opened ChatContext

  /** `email.split('@')[0]`: the text before the first '@', or all of it. */
  function LocalPart(email: string): (r: string)
    ensures |r| <= |email| && email[..|r|] == r
    ensures '@' !in r
    ensures |r| < |email| ==> email[|r|] == '@'
    decreases |email|
  {
    if email == [] || email[0] == '@' then []
    else [email[0]] + LocalPart(email[1..])
  }

  /** `user.displayName || user.email.split('@')[0]`: a missing or empty
      display name falls back to the e-mail's local part. */
  function ShownName(displayName: Option<string>, email: string): (r: string)
    ensures displayName.Some? && displayName.value != "" ==> r == displayName.value
    ensures displayName.None? || displayName.value == "" ==> r == LocalPart(email)
  {
    if displayName.Some? && displayName.value != "" then displayName.value else LocalPart(email)
  }

  class AppState {
    var userId: Option<string>
    var userEmail: Option<string>
    var userName: Option<string>
    var transactions: seq<Tx>
    var chatHistory: seq<Msg>

    /** The identity is all set or all cleared, and nothing is held while
        nobody is signed in. */
    ghost predicate Valid()
      reads this
    {
      && (userId.None? <==> userEmail.None?)
      && (userId.None? <==> userName.None?)
      && (userId.None? ==> transactions == [] && chatHistory == [])
    }

    /** The page as loaded: nobody signed in, nothing held. */
    constructor()
      ensures Valid()
      ensures userId.None? && transactions == [] && chatHistory == []
    {
      userId, userEmail, userName := None, None, None;
      transactions, chatHistory := [], [];
    }

    /** The auth observer with a user: record the identity; the lists are
        left to the listeners it sets up. */
    method SignIn(uid: string, email: string, displayName: Option<string>)
      requires Valid()
      modifies this
      ensures Valid()
      ensures userId == Some(uid) && userEmail == Some(email)
      ensures userName == Some(ShownName(displayName, email))
      ensures transactions == old(transactions) && chatHistory == old(chatHistory)
    {
      userId := Some(uid);
      userEmail := Some(email);
      userName := Some(ShownName(displayName, email));
    }

    /** The auth observer without a user: clear the identity and empty both lists. */
    method SignOut()
      modifies this
      ensures Valid()
      ensures userId.None? && userEmail.None? && userName.None?
      ensures transactions == [] && chatHistory == []
    {
      userId, userEmail, userName := None, None, None;
      transactions := [];
      chatHistory := [];
    }

    /** The ledger listener: the snapshot replaces the list wholesale. */
    method OnTransactionsSnapshot(docs: seq<Tx>)
      requires Valid() && userId.Some?
      modifies this
      ensures Valid()
      ensures transactions == docs
      ensures chatHistory == old(chatHistory) && userId == old(userId)
      ensures userEmail == old(userEmail) && userName == old(userName)
    {
      transactions := docs;
    }

    /** The chat listener: the snapshot replaces the history wholesale. */
    method OnChatSnapshot(docs: seq<Msg>)
      requires Valid() && userId.Some?
      modifies this
      ensures Valid()
      ensures chatHistory == docs
      ensures transactions == old(transactions) && userId == old(userId)
      ensures userEmail == old(userEmail) && userName == old(userName)
    {
      chatHistory := docs;
    }
  }
}
