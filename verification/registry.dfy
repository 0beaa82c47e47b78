/** The account registry: the user table with its unique Telegram ids, the
    manager's `create_user` and `create_superuser`, and the authentication
    backend's `authenticate` and `get_user`. The table is a map from Telegram
    id to user; creating a user returns the new table. */
module Registry {

  import opened Wrappers
  import opened Values
  import opened ServerModels

  datatype Table = Table(users: map<string, User>, nextPk: nat)

  /** Every user is stored under its own Telegram id, primary keys are below
      the next one to hand out, and primary keys and stored chat-id hashes
      are unique */
  predicate Valid(tbl: Table) {
    && (forall t :: t in tbl.users ==> tbl.users[t].telegramId == t && tbl.users[t].pk < tbl.nextPk)
    && (forall t, t' :: t in tbl.users && t' in tbl.users && t != t' ==>
          tbl.users[t].pk != tbl.users[t'].pk && tbl.users[t].chatId != tbl.users[t'].chatId)
  }

  const Empty: Table := Table(map[], 1)

  lemma EmptyIsValid()
    ensures Valid(Empty)
  {
  }

  datatype AccountError =
    | MissingCredentials   // ValueError: both ids are required
    | UnexpectedField      // TypeError: an unknown keyword argument
    | FieldType            // a keyword argument of the wrong type
    | ChatIdNotText        // AttributeError: only a str can be hashed
    | Duplicate            // IntegrityError: a unique column clashes
    | NotStaff             // ValueError: is_staff must be True
    | NotSuperuser         // ValueError: is_superuser must be True

  const KnownFields: set<string> :=
    {"first_name", "last_name", "balance", "is_staff", "is_superuser", "is_active"}

  /** A nullable text field given as a keyword argument, `None` by default */
  function TextArg(extra: Dict, key: string): Result<Option<string>, AccountError> {
    if key !in extra then Ok(None)
    else match extra[key]
      case VNone => Ok(None)
      case VStr(s) => Ok(Some(s))
      case _ => Err(FieldType)
  }

  /** The nullable float `balance`, `0.0` by default */
  function BalanceArg(extra: Dict): Result<Option<real>, AccountError> {
    if "balance" !in extra then Ok(Some(0.0))
    else match extra["balance"]
      case VNone => Ok(None)
      case VInt(i) => Ok(Some(i as real))
      case VFloat(r) => Ok(Some(r))
      case _ => Err(FieldType)
  }

  function FlagArg(extra: Dict, key: string, default: bool): Value {
    if key in extra then extra[key] else VBool(default)
  }

  /** `self.model(telegram_id=telegram_id, **extra_fields)`: an unknown
      keyword is refused; otherwise the keyword arguments reach the new
      user, and the fields not given take their declared defaults */
  function NewUser(pk: nat, telegramId: string, extra: Dict): (r: Result<User, AccountError>)
    ensures !(extra.Keys <= KnownFields) ==> r == Err(UnexpectedField)
    ensures r.Ok? ==> r.value.pk == pk && r.value.telegramId == telegramId && r.value.chatId == ""
    ensures r.Ok? ==> Carries(r.value, extra)
    ensures r.Ok? ==>
      && ("first_name" !in extra ==> r.value.firstName.None?)
      && ("last_name" !in extra ==> r.value.lastName.None?)
      && ("balance" !in extra ==> r.value.balance == Some(0.0))
      && ("is_staff" !in extra ==> r.value.isStaff == VBool(false))
      && ("is_superuser" !in extra ==> r.value.isSuperuser == VBool(false))
      && ("is_active" !in extra ==> r.value.isActive == VBool(true))
  {
    if !(extra.Keys <= KnownFields) then Err(UnexpectedField)
    else
      var first :- TextArg(extra, "first_name");
      var last :- TextArg(extra, "last_name");
      var balance :- BalanceArg(extra);
      Ok(User(pk, telegramId, "", first, last, balance,
              FlagArg(extra, "is_staff", false), FlagArg(extra, "is_superuser", false),
              FlagArg(extra, "is_active", true)))
  }

  /** The keyword arguments reach the stored user unchanged */
  predicate Carries(u: User, extra: Dict) {
    && ("first_name" in extra ==> OfOptionalString(u.firstName) == extra["first_name"])
    && ("last_name" in extra ==> OfOptionalString(u.lastName) == extra["last_name"])
    && ("is_staff" in extra ==> u.isStaff == extra["is_staff"])
    && ("is_superuser" in extra ==> u.isSuperuser == extra["is_superuser"])
    && ("is_active" in extra ==> u.isActive == extra["is_active"])
    && ("balance" in extra && extra["balance"].VFloat? ==> u.balance == Some(extra["balance"].r))
  }

  /** `save()`: both the Telegram id and the stored chat-id hash are unique;
      a user with the next primary key keeps the table valid */
  function Save(tbl: Table, u: User): (r: Result<Table, AccountError>)
    ensures r.Ok? <==> u.telegramId !in tbl.users && forall t :: t in tbl.users ==> tbl.users[t].chatId != u.chatId
    ensures r.Ok? ==> r.value.users == tbl.users[u.telegramId := u] && r.value.nextPk == tbl.nextPk + 1
    ensures Valid(tbl) && u.pk == tbl.nextPk && r.Ok? ==> Valid(r.value)
  {
    if u.telegramId in tbl.users then Err(Duplicate)
    else if exists t :: t in tbl.users && tbl.users[t].chatId == u.chatId then Err(Duplicate)
    else Ok(Table(tbl.users[u.telegramId := u], tbl.nextPk + 1))
  }

  /** `create_user(telegram_id, chat_id, **extra_fields)` */
  function CreateUser(sha512: Digest, tbl: Table, telegramId: Value, chatId: Value, extra: Dict)
    : (r: Result<(Table, User), AccountError>)
    ensures !(Truthy(telegramId) && Truthy(chatId)) ==> r == Err(MissingCredentials)
    ensures r.Ok? ==>
      && telegramId.VStr? && chatId.VStr?
      && r.value.1.telegramId == telegramId.s
      && r.value.1.chatId == EncodeChatId(sha512, chatId.s)
      && r.value.1.pk == tbl.nextPk
      && Carries(r.value.1, extra)
      && telegramId.s !in tbl.users
      && r.value.0.users == tbl.users[telegramId.s := r.value.1]
  {
    if !(Truthy(telegramId) && Truthy(chatId)) then Err(MissingCredentials)
    else if !telegramId.VStr? then Err(FieldType)
    else
      var made :- NewUser(tbl.nextPk, telegramId.s, extra);
      if !chatId.VStr? then Err(ChatIdNotText)
      else
        var u := SetChatId(sha512, made, chatId.s);
        var tbl' :- Save(tbl, u);
        Ok((tbl', u))
  }

  /** Creating a user keeps the table valid */
  lemma CreateUserKeepsValid(sha512: Digest, tbl: Table, telegramId: Value, chatId: Value, extra: Dict)
    requires Valid(tbl)
    requires CreateUser(sha512, tbl, telegramId, chatId, extra).Ok?
    ensures Valid(CreateUser(sha512, tbl, telegramId, chatId, extra).value.0)
  {
    var (tbl', u) := CreateUser(sha512, tbl, telegramId, chatId, extra).value;
    assert !(exists t :: t in tbl.users && tbl.users[t].chatId == u.chatId);
    assert tbl'.nextPk == tbl.nextPk + 1;
  }

  /** `extra_fields.setdefault(key, v)`: the given entries are kept, and
      `key` is added with `v` when it is missing */
  function SetDefault(extra: Dict, key: string, v: Value): (r: Dict)
    ensures key in r && (key in extra ==> r == extra) && (key !in extra ==> r[key] == v)
    ensures r.Keys == extra.Keys + {key}
    ensures forall k :: k in extra ==> r[k] == extra[k]
  {
    if key in extra then extra else extra[key := v]
  }

  /** `create_superuser`: the staff, superuser and active flags default to
      `True`; the first two must then be exactly `True` */
  function CreateSuperuser(sha512: Digest, tbl: Table, telegramId: Value, chatId: Value, extra: Dict)
    : (r: Result<(Table, User), AccountError>)
    ensures "is_staff" in extra && extra["is_staff"] != VBool(true) ==> r == Err(NotStaff)
    ensures (("is_staff" !in extra || extra["is_staff"] == VBool(true))
             && "is_superuser" in extra && extra["is_superuser"] != VBool(true)) ==> r == Err(NotSuperuser)
    ensures r.Ok? ==> r.value.1.isStaff == VBool(true) && r.value.1.isSuperuser == VBool(true)
    ensures r.Ok? ==> r.value.1.isActive == (if "is_active" in extra then extra["is_active"] else VBool(true))
  {
    var e := SetDefault(SetDefault(SetDefault(extra, "is_staff", VBool(true)), "is_superuser", VBool(true)),
                        "is_active", VBool(true));
    if e["is_staff"] != VBool(true) then Err(NotStaff)
    else if e["is_superuser"] != VBool(true) then Err(NotSuperuser)
    else CreateUser(sha512, tbl, telegramId, chatId, e)
  }

  /** Without explicit staff and superuser flags, `create_superuser` is
      `create_user` with both flags `True`, and `is_active` as given or `True` */
  lemma SuperuserIsUserWithFlags(sha512: Digest, tbl: Table, telegramId: Value, chatId: Value, extra: Dict)
    requires "is_staff" !in extra && "is_superuser" !in extra
    ensures CreateSuperuser(sha512, tbl, telegramId, chatId, extra) ==
      CreateUser(sha512, tbl, telegramId, chatId,
                 extra["is_staff" := VBool(true)]["is_superuser" := VBool(true)]
                      ["is_active" := FlagArg(extra, "is_active", true)])
  {
    var e := SetDefault(SetDefault(SetDefault(extra, "is_staff", VBool(true)), "is_superuser", VBool(true)),
                        "is_active", VBool(true));
    assert e == extra["is_staff" := VBool(true)]["is_superuser" := VBool(true)]
                     ["is_active" := FlagArg(extra, "is_active", true)];
  }

  datatype AuthError =
    | UnknownTelegramId    // ValidationError: no such user
    | WrongChatId          // ValidationError: chat id is incorrect
    | NoChatId             // AttributeError: `None` cannot be hashed

  /** `authenticate(request, telegram_id, chat_id)` */
  function Authenticate(sha512: Digest, tbl: Table, telegramId: Option<string>, chatId: Option<string>)
    : (r: Result<User, AuthError>)
    ensures (telegramId.None? || telegramId.value !in tbl.users) <==> r == Err(UnknownTelegramId)
    ensures r.Ok? <==>
      telegramId.Some? && telegramId.value in tbl.users && chatId.Some?
      && CheckChatId(sha512, tbl.users[telegramId.value], chatId.value)
    ensures r.Ok? ==> r.value == tbl.users[telegramId.value]
  {
    match telegramId
    case None => Err(UnknownTelegramId)
    case Some(t) =>
      if t !in tbl.users then Err(UnknownTelegramId)
      else match chatId
        case None => Err(NoChatId)
        case Some(c) =>
          if CheckChatId(sha512, tbl.users[t], c) then Ok(tbl.users[t]) else Err(WrongChatId)
  }

  /** A user created with a Telegram id and a chat id authenticates with
      exactly those, and the user returned is the one created */
  lemma CreateThenAuthenticate(sha512: Digest, tbl: Table, t: string, c: string, extra: Dict)
    requires CreateUser(sha512, tbl, VStr(t), VStr(c), extra).Ok?
    ensures var (tbl', u) := CreateUser(sha512, tbl, VStr(t), VStr(c), extra).value;
            Authenticate(sha512, tbl', Some(t), Some(c)) == Ok(u)
  {
  }

  /** A known Telegram id with a chat id whose hash differs from the stored
      one is refused */
  lemma WrongChatIdIsRefused(sha512: Digest, tbl: Table, t: string, c: string)
    requires t in tbl.users && EncodeChatId(sha512, c) != tbl.users[t].chatId
    ensures Authenticate(sha512, tbl, Some(t), Some(c)) == Err(WrongChatId)
  {
  }

  /** `get_user(user_id)`: the user with that primary key, or `None` */
  method GetUser(tbl: Table, pk: int) returns (r: Option<User>)
    requires Valid(tbl)
    ensures r.None? <==> forall t :: t in tbl.users ==> tbl.users[t].pk != pk
    ensures r.Some? ==> r.value.pk == pk && r.value.telegramId in tbl.users
                        && tbl.users[r.value.telegramId] == r.value
  {
    if t :| t in tbl.users && tbl.users[t].pk == pk {
      r := Some(tbl.users[t]);
    } else {
      r := None;
    }
  }
}
