/** The bot's records: the JWT pair `Token`, whose payload is derived by
    decoding the access token, and the bot-side `TelegramUser` with the
    dictionaries both send to the server. The JWT decoder and the `.env`
    configuration are parameters. */
module BotModels {

  import opened Wrappers
  import opened Values

  /** The `.env` file as read by `dotenv_values`: a key without `=` maps to
      `None` */
  type Config = map<string, Option<string>>

  /** `config.get(key)` */
  function ConfigGet(config: Config, key: string): (r: Value)
    ensures r.VNone? || r.VStr?
    ensures key in config && config[key].Some? <==> r.VStr?
    ensures r.VStr? ==> r.s == config[key].value
  {
    if key in config then OfOptionalString(config[key]) else VNone
  }

  /** `dict.get(key)` on a decoded JSON object */
  function DictGet(d: Dict, key: string): Value {
    if key in d then d[key] else VNone
  }

  /** What `jwt.decode(token, key, algorithms=["HS256"])` does: return the
      claims, raise `ExpiredSignatureError`, or raise another error */
  datatype JwtOutcome = Claims(claims: Dict) | Expired | Rejected(reason: string)

  type JwtDecode = (string, Option<string>) -> JwtOutcome

  /** `SECRET_KEY = config.get("secret_key")` */
  function SecretKey(config: Config): Option<string> {
    if "secret_key" in config then config["secret_key"] else None
  }

  datatype Token = Token(access: string, refresh: string, payload: Option<Dict>)

  /** `Token(access, refresh)` with `__post_init__`: the payload is `None`
      for an expired access token; any other decoding error propagates */
  function MakeToken(decode: JwtDecode, config: Config, access: string, refresh: string)
    : (r: Result<Token, string>)
    ensures r.Err? <==> decode(access, SecretKey(config)).Rejected?
    ensures r.Ok? ==> r.value.access == access && r.value.refresh == refresh
    ensures r.Ok? ==> (r.value.payload.None? <==> decode(access, SecretKey(config)).Expired?)
    ensures r.Ok? && r.value.payload.Some? ==>
      && r.value.payload.value.Keys == {"telegram_id", "chat_id"}
      && r.value.payload.value["telegram_id"] == DictGet(decode(access, SecretKey(config)).claims, "telegram_id")
      && r.value.payload.value["chat_id"] == ConfigGet(config, "chat_id")
  {
    match decode(access, SecretKey(config))
    case Claims(data) =>
      Ok(Token(access, refresh, Some(map["telegram_id" := DictGet(data, "telegram_id"),
                                         "chat_id" := ConfigGet(config, "chat_id")])))
    case Expired => Ok(Token(access, refresh, None))
    case Rejected(e) => Err(e)
  }

  /** `Token.access_data()`: the bearer authorization header, which carries
      exactly the access token and nothing else */
  function AccessData(t: Token): (r: Dict)
    ensures r.Keys == {"Authorization"}
    ensures BearerToken(r["Authorization"]) == Some(t.access)
  {
    var header := BearerPrefix + t.access;
    assert header[..|BearerPrefix|] == BearerPrefix && header[|BearerPrefix|..] == t.access;
    map["Authorization" := VStr(header)]
  }

  const BearerPrefix := "Bearer "

  /** The token a server reads back from an `Authorization` header */
  function BearerToken(header: Value): (r: Option<string>)
    ensures r.Some? ==> header == VStr(BearerPrefix + r.value)
  {
    if header.VStr? && |header.s| >= |BearerPrefix| && header.s[..|BearerPrefix|] == BearerPrefix
    then (assert header.s == BearerPrefix + header.s[|BearerPrefix|..]; Some(header.s[|BearerPrefix|..]))
    else None
  }

  /** `Token.post_data()`: the payload, `None` for an expired token */
  function PostData(t: Token): (r: Value)
    ensures r.VNone? <==> t.payload.None?
    ensures r.VDict? ==> r.entries == t.payload.value
  {
    match t.payload
    case None => VNone
    case Some(p) => VDict(p)
  }

  /** `Token.refresh_data()`: the body carries exactly the refresh token */
  function RefreshData(t: Token): (r: Dict)
    ensures r.Keys == {"refresh"} && r["refresh"] == VStr(t.refresh)
  {
    map["refresh" := VStr(t.refresh)]
  }

  /** The bot-side `TelegramUser` record */
  datatype BotUser = BotUser(
    telegramId: string,
    id: Option<int>,
    chatId: Value,
    access: string,
    refresh: string,
    firstName: string,
    lastName: string,
    balance: real,
    subscriber: Option<Dict>)

  /** `TelegramUser(telegram_id)` with every other field at its default */
  function NewBotUser(config: Config, telegramId: string): (u: BotUser)
    ensures u.telegramId == telegramId && u.id.None? && u.subscriber.None?
    ensures u.access == "" && u.refresh == "" && u.firstName == "" && u.lastName == ""
    ensures u.balance == 0.0
    ensures u.chatId == ConfigGet(config, "chat_id")
  {
    BotUser(telegramId, None, ConfigGet(config, "chat_id"), "", "", "", "", 0.0, None)
  }

  /** `TelegramUser.access_data()`: exactly the two credentials, each
      copied from its field */
  function UserAccessData(u: BotUser): (r: Dict)
    ensures r.Keys == {"telegram_id", "chat_id"}
    ensures r["telegram_id"] == VStr(u.telegramId) && r["chat_id"] == u.chatId
  {
    map["telegram_id" := VStr(u.telegramId), "chat_id" := u.chatId]
  }

  /** `TelegramUser.post_data()`: the registration body holds exactly the
      credentials of `access_data` plus the two names, each copied from its
      field */
  function UserPostData(u: BotUser): (r: Dict)
    ensures r.Keys == UserAccessData(u).Keys + {"first_name", "last_name"}
    ensures forall k :: k in UserAccessData(u) ==> r[k] == UserAccessData(u)[k]
    ensures r["first_name"] == VStr(u.firstName) && r["last_name"] == VStr(u.lastName)
  {
    UserAccessData(u)["first_name" := VStr(u.firstName)]["last_name" := VStr(u.lastName)]
  }

  /** A token whose claims name a user's Telegram id posts the same
      credentials that user sends: the chat id of both comes from the
      configuration */
  lemma TokenPayloadMatchesUser(decode: JwtDecode, config: Config, access: string, refresh: string,
                                telegramId: string)
    requires decode(access, SecretKey(config)).Claims?
    requires DictGet(decode(access, SecretKey(config)).claims, "telegram_id") == VStr(telegramId)
    ensures MakeToken(decode, config, access, refresh).Ok?
    ensures PostData(MakeToken(decode, config, access, refresh).value)
            == VDict(UserAccessData(NewBotUser(config, telegramId)))
  {
  }
}
