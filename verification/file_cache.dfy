/** The bot's JSON cache: an `IOHandler` reads and writes one file as UTF-8
    text, and the cache handler keeps a JSON list per file, appending to it
    on every update. The file system is a map from path to bytes plus the
    set of existing directories; JSON encoding is a codec passed in. */
module FileCache {

  import opened Wrappers
  import opened Values
  import Text
  import Utf8

  datatype Disk = Disk(files: map<string, seq<Utf8.byte>>, dirs: set<string>)

  /** An `IOHandler` for the file `name` inside the directory `dir` */
  datatype Handler = Handler(dir: string, name: string)

  function Path(h: Handler): string {
    h.dir + "/" + h.name
  }

  /** What `post` is given: a `str` (written UTF-8 encoded) or `bytes` */
  datatype Payload = Text(s: string) | Raw(b: seq<Utf8.byte>)

  datatype CacheError =
    | NoSuchDirectory   // FileNotFoundError from opening the file for writing
    | NotUtf8           // UnicodeDecodeError from `data.decode()`
    | NotJson           // JSONDecodeError from `json.loads`
    | NotAList          // TypeError from `data + [received]`

  /** The bytes written for a payload: text is written UTF-8 encoded */
  function Bytes(data: Payload): seq<Utf8.byte> {
    match data
    case Text(s) => Utf8.Encode(s)
    case Raw(b) => b
  }

  /** `post`: overwrite (or create) the file; it fails when the directory
      does not exist */
  function Post(disk: Disk, h: Handler, data: Payload): (r: Result<Disk, CacheError>)
    ensures r.Ok? <==> h.dir in disk.dirs
    ensures r.Ok? ==> r.value.dirs == disk.dirs && Path(h) in r.value.files
    ensures r.Ok? ==> r.value.files[Path(h)] == Bytes(data)
    ensures r.Ok? ==> forall p :: p != Path(h) ==>
      (p in r.value.files <==> p in disk.files) && (p in disk.files ==> r.value.files[p] == disk.files[p])
  {
    if h.dir !in disk.dirs then Err(NoSuchDirectory)
    else Ok(disk.(files := disk.files[Path(h) := Bytes(data)]))
  }

  /** `get`: the file decoded as UTF-8, or `"[]"` when it does not exist */
  function Get(disk: Disk, h: Handler): (r: Result<string, CacheError>)
    ensures Path(h) !in disk.files ==> r == Ok("[]")
    ensures Path(h) in disk.files ==>
      (r.Ok? <==> Utf8.Decode(disk.files[Path(h)]).Some?) &&
      (r.Ok? ==> Utf8.Encode(r.value) == disk.files[Path(h)])
  {
    if Path(h) !in disk.files then Ok("[]")
    else match Utf8.Decode(disk.files[Path(h)])
      case None => Err(NotUtf8)
      case Some(s) => Utf8.EncodeOfDecode(disk.files[Path(h)]); Ok(s)
  }

  /** Text posted to a file reads back unchanged */
  lemma PostThenGet(disk: Disk, h: Handler, s: string)
    requires h.dir in disk.dirs
    ensures Get(Post(disk, h, Text(s)).value, h) == Ok(s)
  {
    Utf8.DecodeEncode(s);
  }

  /** The JSON codec: `json.dumps`, and `json.loads` which fails on text
      that is not JSON */
  datatype Codec = Codec(dumps: Value -> string, loads: string -> Option<Value>)

  /** `m / 10^k`: the number a JSON numeral with `k` decimals spells */
  function DecimalNumber(m: int, k: nat): real {
    m as real / Text.Pow10(k) as real
  }

  /** The values JSON writes and reads back: `None`, booleans, integers,
      strings, lists and string-keyed dicts of such values, and floats that
      are finite decimal fractions. Every binary floating-point number is
      one (`m / 2^k` is `m * 5^k / 10^k`), so this is every value the
      program can hand to `json.dumps`. */
  ghost predicate Jsonable(v: Value) {
    match v
    case VFloat(r) => exists m: int, k: nat :: DecimalNumber(m, k) == r
    case VList(items) => forall i :: 0 <= i < |items| ==> Jsonable(items[i])
    case VDict(entries) => forall key :: key in entries ==> Jsonable(entries[key])
    case _ => true
  }

  /** What the model needs of the codec: `loads` yields JSON values only,
      `loads` inverts `dumps` on JSON values, `dumps` never yields the
      empty string for them, and the empty list and dict are written `[]`
      and `{}` */
  ghost predicate Lawful(codec: Codec) {
    && (forall text :: codec.loads(text).Some? ==> Jsonable(codec.loads(text).value))
    && (forall v :: Jsonable(v) ==> codec.loads(codec.dumps(v)) == Some(v) && codec.dumps(v) != "")
    && codec.dumps(VList([])) == "[]"
    && codec.dumps(VDict(map[])) == "{}"
  }

  /** `to_json`: a falsy value is written `{}`; reading back what it wrote
      gives the value, or the empty dict for a falsy value */
  function ToJson(codec: Codec, data: Value): (r: string)
    ensures !Truthy(data) ==> r == "{}"
    ensures Lawful(codec) && Jsonable(data) ==>
      FromJson(codec, r) == Ok(if Truthy(data) then data else VDict(map[]))
  {
    if Truthy(data) then codec.dumps(data) else "{}"
  }

  /** `from_json`: the empty string reads as an empty dict; other text fails
      exactly when `json.loads` does, and what it reads is a JSON value */
  function FromJson(codec: Codec, data: string): (r: Result<Value, CacheError>)
    ensures |data| == 0 ==> r == Ok(VDict(map[]))
    ensures |data| > 0 ==> (r.Err? <==> codec.loads(data).None?)
    ensures Lawful(codec) && r.Ok? ==> Jsonable(r.value)
  {
    if |data| > 0 then
      match codec.loads(data)
      case None => Err(NotJson)
      case Some(v) => Ok(v)
    else Ok(VDict(map[]))
  }

  /** The falsy cases of `to_json` and `from_json` */
  lemma FalsyJson(codec: Codec, v: Value)
    requires !Truthy(v)
    ensures ToJson(codec, v) == "{}" && FromJson(codec, "") == Ok(VDict(map[]))
  {
  }

  /** The list a cache file holds: a missing file holds the empty list; a
      file that is not UTF-8, not JSON or not a list holds none. Under a
      lawful codec its items are JSON values. */
  function Contents(disk: Disk, codec: Codec, h: Handler): (r: Option<seq<Value>>)
    ensures r.Some? ==> Get(disk, h).Ok? && FromJson(codec, Get(disk, h).value) == Ok(VList(r.value))
    ensures Lawful(codec) && r.Some? ==> forall i :: 0 <= i < |r.value| ==> Jsonable(r.value[i])
  {
    match Get(disk, h)
    case Err(_) => None
    case Ok(text) =>
      match FromJson(codec, text)
      case Ok(VList(items)) => Some(items)
      case _ => None
  }

  /** A cache file that was never written holds the empty list */
  lemma MissingFileIsEmpty(disk: Disk, codec: Codec, h: Handler)
    requires Lawful(codec) && Path(h) !in disk.files
    ensures Contents(disk, codec, h) == Some([])
  {
    assert Jsonable(VList([]));
  }

  /** `update_users` / `update_tokens`: parse the new document, read the
      stored list, append and write the list back. It succeeds exactly when
      the document parses, the file holds a list and the directory exists,
      and no other file changes. */
  function Update(disk: Disk, codec: Codec, h: Handler, doc: string): (r: Result<Disk, CacheError>)
    ensures r.Ok? <==> FromJson(codec, doc).Ok? && Contents(disk, codec, h).Some? && h.dir in disk.dirs
    ensures r.Ok? ==>
      && r.value.dirs == disk.dirs
      && forall p :: p != Path(h) ==>
           (p in r.value.files <==> p in disk.files) && (p in disk.files ==> r.value.files[p] == disk.files[p])
  {
    var received :- FromJson(codec, doc);
    var stored :- Get(disk, h);
    var data :- FromJson(codec, stored);
    if !data.VList? then Err(NotAList)
    else Post(disk, h, Text(ToJson(codec, VList(data.items + [received]))))
  }

  /** Under a lawful codec, after an update the file holds the old list
      followed by the parsed document */
  lemma UpdateAppends(disk: Disk, codec: Codec, h: Handler, doc: string)
    ensures Lawful(codec) && Update(disk, codec, h, doc).Ok? ==>
      Contents(Update(disk, codec, h, doc).value, codec, h)
        == Some(Contents(disk, codec, h).value + [FromJson(codec, doc).value])
  {
    if Lawful(codec) && Update(disk, codec, h, doc).Ok? {
      var items, received := Contents(disk, codec, h).value, FromJson(codec, doc).value;
      var list := VList(items + [received]);
      assert Jsonable(list) by {
        assert forall i :: 0 <= i < |items| ==> (items + [received])[i] == items[i];
      }
      var text := ToJson(codec, list);
      assert Truthy(list);
      PostThenGet(disk, h, text);
    }
  }

  /** The cache directory's two handlers, `users` and `tokens` */
  function Users(cacheDir: string): Handler { Handler(cacheDir, "users.json") }
  function Tokens(cacheDir: string): Handler { Handler(cacheDir, "tokens.json") }

  lemma UsersAndTokensDiffer(cacheDir: string)
    ensures Path(Users(cacheDir)) != Path(Tokens(cacheDir))
  {
    assert Path(Users(cacheDir))[|cacheDir| + 1] == 'u';
    assert Path(Tokens(cacheDir))[|cacheDir| + 1] == 't';
  }

  /** `update_users`: it succeeds exactly when the document parses, the
      users file holds a list and the cache directory exists; the tokens
      file stays as it was, and under a lawful codec the document is
      appended to the users list */
  function UpdateUsers(disk: Disk, codec: Codec, cacheDir: string, doc: string): (r: Result<Disk, CacheError>)
    ensures r.Ok? <==>
      FromJson(codec, doc).Ok? && Contents(disk, codec, Users(cacheDir)).Some? && cacheDir in disk.dirs
    ensures r.Ok? ==> Get(r.value, Tokens(cacheDir)) == Get(disk, Tokens(cacheDir))
    ensures Lawful(codec) && r.Ok? ==>
      Contents(r.value, codec, Users(cacheDir))
        == Some(Contents(disk, codec, Users(cacheDir)).value + [FromJson(codec, doc).value])
  {
    UsersAndTokensDiffer(cacheDir);
    UpdateAppends(disk, codec, Users(cacheDir), doc);
    Update(disk, codec, Users(cacheDir), doc)
  }

  /** `update_tokens`: as `update_users`, with the two files swapped */
  function UpdateTokens(disk: Disk, codec: Codec, cacheDir: string, doc: string): (r: Result<Disk, CacheError>)
    ensures r.Ok? <==>
      FromJson(codec, doc).Ok? && Contents(disk, codec, Tokens(cacheDir)).Some? && cacheDir in disk.dirs
    ensures r.Ok? ==> Get(r.value, Users(cacheDir)) == Get(disk, Users(cacheDir))
    ensures Lawful(codec) && r.Ok? ==>
      Contents(r.value, codec, Tokens(cacheDir))
        == Some(Contents(disk, codec, Tokens(cacheDir)).value + [FromJson(codec, doc).value])
  {
    UsersAndTokensDiffer(cacheDir);
    UpdateAppends(disk, codec, Tokens(cacheDir), doc);
    Update(disk, codec, Tokens(cacheDir), doc)
  }

  /** Steps applied in order to a disk, stopping at the first error */
  function Fold(step: (Disk, string) -> Result<Disk, CacheError>, disk: Disk, docs: seq<string>)
    : Result<Disk, CacheError>
    decreases |docs|
  {
    if docs == [] then Ok(disk)
    else
      var next :- step(disk, docs[0]);
      Fold(step, next, docs[1..])
  }

  /** The values of the documents, when every one parses */
  function ParseEach(parse: string -> Result<Value, CacheError>, docs: seq<string>): Option<seq<Value>>
    decreases |docs|
  {
    if docs == [] then Some([])
    else match parse(docs[0])
      case Err(_) => None
      case Ok(v) =>
        match ParseEach(parse, docs[1..])
        case None => None
        case Some(vs) => Some([v] + vs)
  }

  lemma {:induction false} ParseEachLength(parse: string -> Result<Value, CacheError>, docs: seq<string>)
    requires ParseEach(parse, docs).Some?
    ensures |ParseEach(parse, docs).value| == |docs|
    decreases |docs|
  {
    if docs != [] {
      ParseEachLength(parse, docs[1..]);
    }
  }

  /** If every step appends the parsed document to the list a disk holds,
      a run of steps appends all of them in order */
  lemma {:induction false} FoldAppends(step: (Disk, string) -> Result<Disk, CacheError>,
                                       view: Disk -> Option<seq<Value>>,
                                       parse: string -> Result<Value, CacheError>,
                                       disk: Disk, docs: seq<string>)
    requires forall d, doc :: view(d).Some? && parse(doc).Ok? ==>
      step(d, doc).Ok? && view(step(d, doc).value) == Some(view(d).value + [parse(doc).value])
    requires view(disk).Some? && ParseEach(parse, docs).Some?
    ensures Fold(step, disk, docs).Ok?
    ensures view(Fold(step, disk, docs).value) == Some(view(disk).value + ParseEach(parse, docs).value)
    decreases |docs|
  {
    if docs == [] {
      assert view(disk).value + [] == view(disk).value;
    } else {
      var next := step(disk, docs[0]).value;
      FoldAppends(step, view, parse, next, docs[1..]);
      var xs, v, vs := view(disk).value, parse(docs[0]).value, ParseEach(parse, docs[1..]).value;
      assert (xs + [v]) + vs == xs + ([v] + vs);
    }
  }

  function UpdateStep(codec: Codec, h: Handler): (Disk, string) -> Result<Disk, CacheError> {
    (d, doc) => Update(d, codec, h, doc)
  }

  function Parser(codec: Codec): string -> Result<Value, CacheError> {
    doc => FromJson(codec, doc)
  }

  /** A sequence of updates of one file, stopping at the first error */
  function UpdateAll(disk: Disk, codec: Codec, h: Handler, docs: seq<string>): Result<Disk, CacheError> {
    Fold(UpdateStep(codec, h), disk, docs)
  }

  function ParseAll(codec: Codec, docs: seq<string>): Option<seq<Value>> {
    ParseEach(Parser(codec), docs)
  }

  /** The list a file holds, while its directory exists */
  function ListView(codec: Codec, h: Handler): Disk -> Option<seq<Value>> {
    (d: Disk) => if h.dir in d.dirs then Contents(d, codec, h) else None
  }

  /** Updates applied in order to a file holding a list leave it holding
      that list followed by the parsed documents in insertion order */
  lemma UpdateAllAppends(disk: Disk, codec: Codec, h: Handler, docs: seq<string>)
    requires Lawful(codec) && h.dir in disk.dirs
    requires Contents(disk, codec, h).Some? && ParseAll(codec, docs).Some?
    ensures UpdateAll(disk, codec, h, docs).Ok?
    ensures Contents(UpdateAll(disk, codec, h, docs).value, codec, h)
            == Some(Contents(disk, codec, h).value + ParseAll(codec, docs).value)
  {
    var step, view, parse := UpdateStep(codec, h), ListView(codec, h), Parser(codec);
    forall d, doc | view(d).Some? && parse(doc).Ok?
      ensures step(d, doc).Ok? && view(step(d, doc).value) == Some(view(d).value + [parse(doc).value])
    {
      UpdateAppends(d, codec, h, doc);
    }
    FoldAppends(step, view, parse, disk, docs);
    assert UpdateAll(disk, codec, h, docs).Ok? && view(UpdateAll(disk, codec, h, docs).value).Some?;
  }

  /** Starting from no file, `k` updates give a list of `k` documents in
      insertion order */
  lemma UpdatesFromNothing(disk: Disk, codec: Codec, h: Handler, docs: seq<string>)
    requires Lawful(codec) && h.dir in disk.dirs && Path(h) !in disk.files
    requires ParseAll(codec, docs).Some?
    ensures UpdateAll(disk, codec, h, docs).Ok?
    ensures Contents(UpdateAll(disk, codec, h, docs).value, codec, h) == ParseAll(codec, docs)
    ensures |ParseAll(codec, docs).value| == |docs|
  {
    MissingFileIsEmpty(disk, codec, h);
    UpdateAllAppends(disk, codec, h, docs);
    assert [] + ParseAll(codec, docs).value == ParseAll(codec, docs).value;
    ParseEachLength(Parser(codec), docs);
  }

  /** `clear_cache`: remove every cache file that exists */
  function ClearCache(disk: Disk, cacheDir: string): (r: Disk)
    ensures r.dirs == disk.dirs
    ensures forall p :: p in r.files <==> p in disk.files && p != Path(Users(cacheDir)) && p != Path(Tokens(cacheDir))
    ensures forall p :: p in r.files ==> r.files[p] == disk.files[p]
  {
    disk.(files := disk.files - {Path(Users(cacheDir)), Path(Tokens(cacheDir))})
  }

  /** After clearing, both cache files read as `"[]"`, and under a lawful
      codec they hold the empty list */
  lemma ClearedCacheReadsEmpty(disk: Disk, codec: Codec, cacheDir: string)
    ensures Get(ClearCache(disk, cacheDir), Users(cacheDir)) == Ok("[]")
    ensures Get(ClearCache(disk, cacheDir), Tokens(cacheDir)) == Ok("[]")
    ensures Lawful(codec) ==> Contents(ClearCache(disk, cacheDir), codec, Users(cacheDir)) == Some([])
    ensures Lawful(codec) ==> Contents(ClearCache(disk, cacheDir), codec, Tokens(cacheDir)) == Some([])
  {
    if Lawful(codec) {
      MissingFileIsEmpty(ClearCache(disk, cacheDir), codec, Users(cacheDir));
      MissingFileIsEmpty(ClearCache(disk, cacheDir), codec, Tokens(cacheDir));
    }
  }
}
