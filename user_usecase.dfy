/** Get-or-create of a user and of its chat link (internal/usecase/user/usecase.go): the user
    is found by (external id, source) or created under a fresh id in a first transaction;
    then, when the request names a chat, the (user, chat) link is found or created in a
    second one. */
module UserUsecase {
  import opened Wrappers
  import opened Contracts
  import opened GameModel

  /** A user's identity in an outside system: (external id, source). */
  type SourceKey = (string, string)
  /** A chat link: (user id, chat id). */
  type ChatKey = (Uuid, int)

  /** The repository calls, each of which may fail with a storage error other than "not
      found"; which of them fail in a given run is a parameter. */
  datatype Step = GetUserBySource | InsertSource | GetUserChat | InsertUserChat

  function StorageError(step: Step): Error {
    match step
    case GetUserBySource => Repository("get user by source")
    case InsertSource => Repository("insert source")
    case GetUserChat => Repository("get user chat")
    case InsertUserChat => Repository("insert user chat")
  }

  /** What a call returns and leaves stored. */
  datatype Retrieval = Retrieval(user: Uuid, err: Option<Error>, sources: map<SourceKey, Uuid>, chats: map<ChatKey, string>)

  /** What the first transaction yields: an error, or the user it found or created, with the
      user-source table it leaves (unchanged when it fails). */
  datatype UserStep = UserStep(err: Option<Error>, user: Uuid, sources: map<SourceKey, Uuid>)

  /** The first transaction: the stored user for `key`, or else `newId` once its mapping is
      inserted. */
  function FirstTransaction(sources: map<SourceKey, Uuid>, key: SourceKey, newId: Uuid, failing: set<Step>): UserStep {
    if GetUserBySource in failing then UserStep(Some(StorageError(GetUserBySource)), NilUuid, sources)
    else if key in sources then UserStep(None, sources[key], sources)
    else if InsertSource in failing then UserStep(Some(StorageError(InsertSource)), NilUuid, sources)
    else UserStep(None, newId, sources[key := newId])
  }

  /** The second transaction: the link is looked up and, when missing, inserted with the chat
      type. Yields the error, if any, and the user-chat table it leaves. */
  function SecondTransaction(chats: map<ChatKey, string>, link: ChatKey, chatType: string, failing: set<Step>)
    : (Option<Error>, map<ChatKey, string>)
  {
    if GetUserChat in failing then (Some(StorageError(GetUserChat)), chats)
    else if link in chats then (None, chats)
    else if InsertUserChat in failing then (Some(StorageError(InsertUserChat)), chats)
    else (None, chats[link := chatType])
  }

  /** The outcome of RetrieveUser with `newId` as the id a new user would get and `failing`
      the calls that fail. A failed transaction stores nothing; an error from the chat step
      still leaves the first transaction's user mapping stored. */
  function Retrieve(sources: map<SourceKey, Uuid>, chats: map<ChatKey, string>, data: UserData, newId: Uuid,
                    failing: set<Step>): Retrieval
  {
    var first := FirstTransaction(sources, (data.userIdExt, data.source), newId, failing);
    if first.err.Some? then Retrieval(NilUuid, first.err, first.sources, chats)
    else if data.chatId.None? || data.chatType.None? then Retrieval(first.user, None, first.sources, chats)
    else
      var second := SecondTransaction(chats, (first.user, data.chatId.value), data.chatType.value, failing);
      Retrieval(if second.0.Some? then NilUuid else first.user, second.0, first.sources, second.1)
  }

  class Usecase {
    /** The user-source table: (external id, source) to user id. */
    var sources: map<SourceKey, Uuid>
    /** The user-chat table: (user id, chat id) to chat type. */
    var chats: map<ChatKey, string>

    constructor()
      ensures sources == map[] && chats == map[]
    {
      sources := map[];
      chats := map[];
    }

    /** The first transaction's closure: get the user by its source, or create it. */
    method GetOrCreateUser(key: SourceKey, newId: Uuid, failing: set<Step>) returns (user: Uuid, err: Option<Error>)
      modifies this`sources
      ensures UserStep(err, user, sources) == FirstTransaction(old(sources), key, newId, failing)
    {
      if GetUserBySource in failing {
        return NilUuid, Some(StorageError(GetUserBySource));
      }
      if key in sources {
        return sources[key], None;
      }
      user := newId;
      if InsertSource in failing {
        return NilUuid, Some(StorageError(InsertSource));
      }
      sources := sources[key := user];
      return user, None;
    }

    /** The second transaction's closure: get the chat link, or insert it. */
    method GetOrCreateChat(link: ChatKey, chatType: string, failing: set<Step>) returns (err: Option<Error>)
      modifies this`chats
      ensures (err, chats) == SecondTransaction(old(chats), link, chatType, failing)
    {
      if GetUserChat in failing {
        return Some(StorageError(GetUserChat));
      }
      if link !in chats {
        if InsertUserChat in failing {
          return Some(StorageError(InsertUserChat));
        }
        chats := chats[link := chatType];
      }
      return None;
    }

    /** RetrieveUser, both transactions run as atomic steps. */
    method RetrieveUser(data: UserData, newId: Uuid, failing: set<Step>) returns (user: Uuid, err: Option<Error>)
      modifies this
      ensures Retrieval(user, err, sources, chats) == Retrieve(old(sources), old(chats), data, newId, failing)
    {
      user, err := GetOrCreateUser((data.userIdExt, data.source), newId, failing);
      if err.Some? {
        return NilUuid, err;
      }
      if data.chatId.Some? && data.chatType.Some? {
        err := GetOrCreateChat((user, data.chatId.value), data.chatType.value, failing);
        if err.Some? {
          return NilUuid, err;
        }
      }
      return user, None;
    }
  }

  /** A known user keeps its id: no source row is added, and when the call succeeds it
      returns the stored id. */
  lemma RetrieveKnownUser(sources: map<SourceKey, Uuid>, chats: map<ChatKey, string>, data: UserData, newId: Uuid,
                          failing: set<Step>)
    requires (data.userIdExt, data.source) in sources
    ensures var r := Retrieve(sources, chats, data, newId, failing);
      r.sources == sources && (r.err.None? ==> r.user == sources[(data.userIdExt, data.source)])
  {
  }

  /** An unknown user gets the fresh id: the mapping to it is stored once the first
      transaction succeeds, and it is returned when the whole call succeeds. */
  lemma RetrieveNewUser(sources: map<SourceKey, Uuid>, chats: map<ChatKey, string>, data: UserData, newId: Uuid,
                        failing: set<Step>)
    requires (data.userIdExt, data.source) !in sources
    requires GetUserBySource !in failing && InsertSource !in failing
    ensures var r := Retrieve(sources, chats, data, newId, failing);
      r.sources == sources[(data.userIdExt, data.source) := newId] && (r.err.None? ==> r.user == newId)
  {
  }

  /** Any failure returns the zero user with the error. */
  lemma RetrieveErrorIsZeroUser(sources: map<SourceKey, Uuid>, chats: map<ChatKey, string>, data: UserData, newId: Uuid,
                                failing: set<Step>)
    ensures var r := Retrieve(sources, chats, data, newId, failing);
      r.err.Some? ==> r.user == NilUuid
    ensures GetUserBySource in failing ==>
      Retrieve(sources, chats, data, newId, failing) == Retrieval(NilUuid, Some(StorageError(GetUserBySource)), sources, chats)
  {
  }

  /** The chat-link table a call leaves: the old one, unless the second transaction adds the
      missing link. */
  lemma RetrieveChats(sources: map<SourceKey, Uuid>, chats: map<ChatKey, string>, data: UserData, newId: Uuid,
                      failing: set<Step>)
    ensures var key := (data.userIdExt, data.source);
      var user := if key in sources then sources[key] else newId;
      var r := Retrieve(sources, chats, data, newId, failing);
      var adds := GetUserBySource !in failing && (key in sources || InsertSource !in failing) &&
        data.chatId.Some? && data.chatType.Some? && GetUserChat !in failing &&
        (user, data.chatId.value) !in chats && InsertUserChat !in failing;
      r.chats == (if adds then chats[(user, data.chatId.value) := data.chatType.value] else chats) &&
      (adds ==> r.user == user && r.err.None?)
  {
  }

  /** Chat links change only when the request names both a chat id and a chat type, and
      then only by adding the missing link for the returned user. */
  lemma RetrieveChatLink(sources: map<SourceKey, Uuid>, chats: map<ChatKey, string>, data: UserData, newId: Uuid,
                         failing: set<Step>)
    ensures var r := Retrieve(sources, chats, data, newId, failing);
      (data.chatId.None? || data.chatType.None? ==> r.chats == chats) &&
      (r.chats != chats ==>
        data.chatId.Some? && data.chatType.Some? && r.err.None? &&
        (r.user, data.chatId.value) !in chats && r.chats == chats[(r.user, data.chatId.value) := data.chatType.value])
  {
    RetrieveChats(sources, chats, data, newId, failing);
  }

  /** A call where no repository call fails: the user is the stored or the fresh id, and a
      named chat ends up linked to it. */
  lemma RetrieveWithoutFailures(sources: map<SourceKey, Uuid>, chats: map<ChatKey, string>, data: UserData, newId: Uuid)
    ensures var key := (data.userIdExt, data.source);
      var r := Retrieve(sources, chats, data, newId, {});
      r.err.None? && r.user == (if key in sources then sources[key] else newId) &&
      key in r.sources && r.sources[key] == r.user && r.sources.Keys == sources.Keys + {key} &&
      (data.chatId.Some? && data.chatType.Some? ==> (r.user, data.chatId.value) in r.chats) &&
      (data.chatId.None? || data.chatType.None? ==> r.chats == chats)
  {
  }

  /** For a known user whose named chat is already linked, a call with no failure stores
      nothing and returns the stored id. */
  lemma RetrieveLinkedUser(sources: map<SourceKey, Uuid>, chats: map<ChatKey, string>, data: UserData, newId: Uuid)
    requires (data.userIdExt, data.source) in sources
    requires data.chatId.Some? && data.chatType.Some? ==> (sources[(data.userIdExt, data.source)], data.chatId.value) in chats
    ensures Retrieve(sources, chats, data, newId, {}) ==
      Retrieval(sources[(data.userIdExt, data.source)], None, sources, chats)
  {
  }

  /** A second identical call, after a successful one, returns the same user and stores
      nothing new, whatever fresh id it is offered. */
  lemma RetrieveIdempotent(sources: map<SourceKey, Uuid>, chats: map<ChatKey, string>, data: UserData, newId: Uuid,
                           otherId: Uuid)
    requires Retrieve(sources, chats, data, newId, {}).err.None?
    ensures var r := Retrieve(sources, chats, data, newId, {});
      Retrieve(r.sources, r.chats, data, otherId, {}) == r
  {
    var r := Retrieve(sources, chats, data, newId, {});
    RetrieveWithoutFailures(sources, chats, data, newId);
    RetrieveLinkedUser(r.sources, r.chats, data, otherId);
    if data.chatId.None? || data.chatType.None? {
      assert r == Retrieval(r.user, None, r.sources, r.chats);
    }
  }

  /** A failure in the chat step returns the zero user, yet a user created by the first
      transaction stays stored. */
  lemma ChatErrorKeepsNewUser(sources: map<SourceKey, Uuid>, chats: map<ChatKey, string>, data: UserData, newId: Uuid)
    requires (data.userIdExt, data.source) !in sources
    requires data.chatId.Some? && data.chatType.Some?
    ensures var r := Retrieve(sources, chats, data, newId, {GetUserChat});
      r.user == NilUuid && r.err == Some(StorageError(GetUserChat)) &&
      r.sources == sources[(data.userIdExt, data.source) := newId]
  {
  }
}
