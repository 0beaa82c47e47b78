/** The pure logic of the server's models: the hashed chat id of a Telegram
    user, the `cash` setter, `__str__`, the subscriber's `is_adult`,
    `gender_length`, the declared field bounds, and the arithmetic that
    `avg_training_time` applies to the aggregated sum. */
module ServerModels {

  import opened Wrappers
  import Utf8
  import Values

  // ---------------------------------------------------------------------------
  // Hashed chat ids

  /** The SHA-512 digest function, a foreign library call */
  type Digest = seq<Utf8.byte> -> seq<Utf8.byte>

  /** A lower-case hexadecimal digit */
  function HexDigit(n: int): (c: char)
    requires 0 <= n < 16
    ensures IsHexChar(c)
  {
    if n < 10 then ('0' as int + n) as char else ('a' as int + n - 10) as char
  }

  predicate IsHexChar(c: char) {
    '0' <= c <= '9' || 'a' <= c <= 'f'
  }

  /** `hexdigest()`: two lower-case hexadecimal digits per byte */
  function Hex(b: seq<Utf8.byte>): (r: string)
    ensures |r| == 2 * |b|
    ensures forall i :: 0 <= i < |r| ==> IsHexChar(r[i])
  {
    if |b| == 0 then ""
    else [HexDigit(b[0] as int / 16), HexDigit(b[0] as int % 16)] + Hex(b[1..])
  }

  /** Distinct digests have distinct hexadecimal renderings */
  lemma {:induction false} HexInjective(a: seq<Utf8.byte>, b: seq<Utf8.byte>)
    requires Hex(a) == Hex(b)
    ensures a == b
  {
    if |a| > 0 {
      var x, y := a[0] as int, b[0] as int;
      assert Hex(a)[0] == Hex(b)[0] && Hex(a)[1] == Hex(b)[1];
      assert x / 16 == y / 16 && x % 16 == y % 16;
      assert Hex(a)[2..] == Hex(a[1..]);
      assert Hex(b)[2..] == Hex(b[1..]);
      HexInjective(a[1..], b[1..]);
      assert a == [a[0]] + a[1..];
      assert b == [b[0]] + b[1..];
    }
  }

  /** `encode_chat_id`: the hexadecimal SHA-512 digest of the UTF-8 bytes,
      two hexadecimal digits per digest byte; it is never the chat id itself
      when that holds a character other than a lower-case hexadecimal
      digit */
  function EncodeChatId(sha512: Digest, s: string): (r: string)
    ensures |r| == 2 * |sha512(Utf8.Encode(s))|
    ensures forall i :: 0 <= i < |r| ==> IsHexChar(r[i])
    ensures (exists i :: 0 <= i < |s| && !IsHexChar(s[i])) ==> r != s
  {
    Hex(sha512(Utf8.Encode(s)))
  }

  /** UTF-8 encoding loses nothing, so equal encodings mean equal strings */
  lemma Utf8Injective(s: string, t: string)
    requires Utf8.Encode(s) == Utf8.Encode(t)
    ensures s == t
  {
    Utf8.DecodeEncode(s);
    Utf8.DecodeEncode(t);
  }

  // ---------------------------------------------------------------------------
  // TelegramUser

  datatype User = User(
    pk: nat,
    telegramId: string,
    chatId: string,
    firstName: Option<string>,
    lastName: Option<string>,
    balance: Option<real>,
    isStaff: Values.Value,
    isSuperuser: Values.Value,
    isActive: Values.Value)

  /** `set_chat_id`: only the hash of the chat id is stored, and nothing
      else about the user changes */
  function SetChatId(sha512: Digest, u: User, s: string): (r: User)
    ensures r.chatId == EncodeChatId(sha512, s)
    ensures r.(chatId := u.chatId) == u
  {
    u.(chatId := EncodeChatId(sha512, s))
  }

  /** `check_chat_id`: compares the hash of the given chat id with the
      stored one, so only a user whose stored chat id is a hexadecimal
      digest of the right length can pass */
  predicate CheckChatId(sha512: Digest, u: User, s: string)
    ensures CheckChatId(sha512, u, s) ==>
      |u.chatId| == 2 * |sha512(Utf8.Encode(s))| && forall i :: 0 <= i < |u.chatId| ==> IsHexChar(u.chatId[i])
  {
    EncodeChatId(sha512, s) == u.chatId
  }

  /** After `set_chat_id(s)`, `check_chat_id(s)` holds, the stored chat id is
      the hash of `s`, and it differs from `s` whenever `s` contains a
      character that is not a lower-case hexadecimal digit */
  lemma SetThenCheckChatId(sha512: Digest, u: User, s: string)
    ensures CheckChatId(sha512, SetChatId(sha512, u, s), s)
    ensures SetChatId(sha512, u, s).chatId == EncodeChatId(sha512, s)
    ensures (exists i :: 0 <= i < |s| && !IsHexChar(s[i])) ==> SetChatId(sha512, u, s).chatId != s
  {
  }

  /** After `set_chat_id(s)`, `check_chat_id(t)` holds exactly when the
      digests of `s` and `t` coincide; it rejects `t` whenever its hash
      differs from the stored one */
  lemma CheckChatIdAccepts(sha512: Digest, u: User, s: string, t: string)
    ensures (CheckChatId(sha512, SetChatId(sha512, u, s), t)
             <==> sha512(Utf8.Encode(t)) == sha512(Utf8.Encode(s)))
    ensures (EncodeChatId(sha512, t) != SetChatId(sha512, u, s).chatId
             ==> !CheckChatId(sha512, SetChatId(sha512, u, s), t))
  {
    if CheckChatId(sha512, SetChatId(sha512, u, s), t) {
      HexInjective(sha512(Utf8.Encode(t)), sha512(Utf8.Encode(s)));
    }
  }

  /** For a digest without collisions, the check accepts only the chat id
      that was set */
  lemma CheckChatIdExact(sha512: Digest, u: User, s: string, t: string)
    requires forall a, b :: sha512(a) == sha512(b) ==> a == b
    ensures CheckChatId(sha512, SetChatId(sha512, u, s), t) <==> t == s
  {
    CheckChatIdAccepts(sha512, u, s, t);
    if CheckChatId(sha512, SetChatId(sha512, u, s), t) {
      Utf8Injective(t, s);
    }
  }

  datatype ModelError = BalanceBelowZero

  /** The `cash` setter: a non-negative value becomes the balance, a negative
      one raises and changes nothing */
  function SetCash(u: User, v: real): (r: Result<User, ModelError>)
    ensures r.Ok? <==> v >= 0.0
    ensures r.Ok? ==> r.value.balance == Some(v) && r.value.(balance := u.balance) == u
  {
    if v >= 0.0 then Ok(u.(balance := Some(v))) else Err(BalanceBelowZero)
  }

  /** The declared bound of `balance`; an unset balance is not validated */
  predicate BalanceValid(u: User) {
    u.balance.None? || u.balance.value >= 0.0
  }

  /** The setter can never break the balance bound: a successful set yields a
      valid balance, and the cash getter reads back the value set */
  lemma SetCashKeepsBalanceValid(u: User, v: real)
    ensures SetCash(u, v).Ok? ==> BalanceValid(SetCash(u, v).value)
    ensures SetCash(u, v).Ok? ==> SetCash(u, v).value.balance == Some(v)
    ensures SetCash(u, v).Err? ==> v < 0.0
  {
  }

  predicate NameIsSet(name: Option<string>) {
    name.Some? && |name.value| > 0
  }

  /** Formatting of a possibly missing name in an f-string */
  function RenderName(name: Option<string>): string {
    match name
    case None => "None"
    case Some(s) => s
  }

  const AnonymousPrefix: string := "Telegram user, id: "

  /** `__str__`: the full name when either part is set, otherwise a label
      with the Telegram id */
  function Display(u: User): (r: string)
    ensures NameIsSet(u.firstName) || NameIsSet(u.lastName) ==>
              && |r| == |RenderName(u.firstName)| + 1 + |RenderName(u.lastName)|
              && r[..|RenderName(u.firstName)|] == RenderName(u.firstName)
              && r[|RenderName(u.firstName)|] == ' '
              && r[|RenderName(u.firstName)| + 1..] == RenderName(u.lastName)
    ensures !(NameIsSet(u.firstName) || NameIsSet(u.lastName)) ==>
              && |r| == |AnonymousPrefix| + |u.telegramId|
              && r[..|AnonymousPrefix|] == AnonymousPrefix
              && r[|AnonymousPrefix|..] == u.telegramId
  {
    if NameIsSet(u.firstName) || NameIsSet(u.lastName) then
      RenderName(u.firstName) + " " + RenderName(u.lastName)
    else AnonymousPrefix + u.telegramId
  }

  /** A first name without spaces can be read back from the display text:
      it is everything before the first space, and the last name is the
      rest */
  lemma DisplaySplitsBackIntoNames(u: User)
    requires NameIsSet(u.firstName) || NameIsSet(u.lastName)
    requires forall i :: 0 <= i < |RenderName(u.firstName)| ==> RenderName(u.firstName)[i] != ' '
    ensures var r, k := Display(u), |RenderName(u.firstName)|;
            && r[k] == ' '
            && (forall i :: 0 <= i < k ==> r[i] != ' ')
            && r[..k] == RenderName(u.firstName)
            && r[k + 1..] == RenderName(u.lastName)
  {
    var r, f := Display(u), RenderName(u.firstName);
    assert r == f + " " + RenderName(u.lastName);
    assert forall i :: 0 <= i < |f| ==> r[i] == f[i];
  }

  // ---------------------------------------------------------------------------
  // Subscriber

  datatype Subscriber = Subscriber(
    gender: Option<string>,
    age: Option<int>,
    height: Option<real>,
    weight: Option<real>,
    trainingProgram: Option<nat>,
    sportNutrition: Option<nat>)

  /** `is_adult`: unknown without an age, otherwise whether the age is at
      least 18 */
  function IsAdult(s: Subscriber): (r: Option<bool>)
    ensures r.None? <==> s.age.None?
    ensures r == Some(true) <==> s.age.Some? && s.age.value >= 18
  {
    match s.age
    case None => None
    case Some(a) => Some(a >= 18)
  }

  /** Growing older never turns an adult back into a minor */
  lemma IsAdultMonotone(s: Subscriber, older: nat)
    requires s.age.Some?
    ensures IsAdult(s) == Some(true) ==> IsAdult(s.(age := Some(s.age.value + older))) == Some(true)
  {
  }

  const Genders: seq<(string, string)> :=
    [("male", "мужчина"), ("female", "женщина"), ("helicopter", "вертолёт")]

  const DefaultGender: string := "helicopter"

  /** `gender_length`: the length of the longest gender code; `None` stands
      for the `IndexError` that an empty list raises */
  function GenderLength(genders: seq<(string, string)>): (r: Option<nat>)
    ensures r.Some? <==> |genders| > 0
    ensures r.Some? ==> forall i :: 0 <= i < |genders| ==> |genders[i].0| <= r.value
    ensures r.Some? ==> exists i :: 0 <= i < |genders| && |genders[i].0| == r.value
  {
    if |genders| == 0 then None
    else
      var rest := GenderLength(genders[1..]);
      var here := |genders[0].0|;
      if rest.None? || rest.value <= here then Some(here)
      else
        assert forall i :: 1 <= i < |genders| ==> genders[i] == genders[1..][i - 1];
        var k :| 0 <= k < |genders[1..]| && |genders[1..][k].0| == rest.value;
        assert genders[k + 1] == genders[1..][k];
        rest
  }

  /** The `gender` column is ten characters wide, which holds every code,
      the default among them */
  lemma GenderFieldFitsEveryCode()
    ensures GenderLength(Genders) == Some(10)
    ensures forall i :: 0 <= i < |Genders| ==> |Genders[i].0| <= 10
    ensures exists i :: 0 <= i < |Genders| && Genders[i].0 == DefaultGender
  {
    assert Genders[2].0 == DefaultGender;
    assert |Genders[0].0| == 4 && |Genders[1].0| == 6 && |Genders[2].0| == 10;
  }

  // ---------------------------------------------------------------------------
  // Declared field bounds

  const SmallIntMax: int := 32767

  datatype TrainingProgram = TrainingProgram(weeks: int, price: real)

  predicate ProgramValid(p: TrainingProgram) {
    1 <= p.weeks <= SmallIntMax
  }

  datatype Training = Training(difficulty: real)

  const MinDifficulty: real := 1.0
  const MaxDifficulty: real := 5.0

  predicate TrainingValid(t: Training) {
    MinDifficulty <= t.difficulty <= MaxDifficulty
  }

  // ---------------------------------------------------------------------------
  // avg_training_time

  /** `timedelta / int`: the quotient of microseconds rounded to the nearest
      integer, ties to even */
  function DivideAndRound(a: int, b: int): (q: int)
    requires b > 0
    ensures -b <= 2 * (q * b - a) <= b
    ensures 2 * (q * b - a) == b || 2 * (q * b - a) == -b ==> q % 2 == 0
  {
    var q, r := a / b, a % b;
    assert q * b + r == a && 0 <= r < b;
    assert (q + 1) * b == q * b + b;
    if 2 * r > b || (2 * r == b && q % 2 == 1) then q + 1 else q
  }

  /** An exact division is not rounded */
  lemma DivideAndRoundExact(k: int, b: int)
    requires b > 0
    ensures DivideAndRound(k * b, b) == k
  {
    var d := DivideAndRound(k * b, b) - k;
    assert -b <= 2 * (d * b) <= b;
    assert d >= 1 ==> d * b >= b;
    assert d <= -1 ==> d * b <= -b;
  }

  datatype AverageError = ZeroDivision

  /** `avg_training_time` after the aggregate, in microseconds: 0 when the
      sum is missing, otherwise the sum over the number of trainings */
  function AvgTrainingTime(total: Option<int>, trainings: nat): (r: Result<int, AverageError>)
    ensures total.None? ==> r == Ok(0)
    ensures total.Some? && trainings == 0 ==> r.Err?
    ensures total.Some? && trainings > 0 ==>
              r.Ok? && -(trainings as int) <= 2 * (r.value * trainings - total.value) <= trainings
  {
    match total
    case None => Ok(0)
    case Some(t) => if trainings == 0 then Err(ZeroDivision) else Ok(DivideAndRound(t, trainings))
  }
}
