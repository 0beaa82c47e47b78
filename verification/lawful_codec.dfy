/** A JSON library that meets `FileCache.Lawful`, so the cache lemmas that
    assume the law are not about an empty class of libraries. The codec is a
    ghost construction, not JSON: every value is written in a prefix-free
    code (a tag letter, lengths in unary, strings prefixed by their length,
    dictionary keys in a chosen order), and text is read back by choosing the
    JSON value whose code it is. */
module LawfulCodec {

  import opened Wrappers
  import opened Values
  import FileCache

  /** `n` in unary: `n` ones closed by `;` */
  function Unary(n: nat): (r: string)
    ensures |r| == n + 1 && r[n] == ';'
    ensures forall i :: 0 <= i < n ==> r[i] == '1'
  {
    if n == 0 then ";" else "1" + Unary(n - 1)
  }

  /** Two equal texts that start with prefixes of the same length agree on
      the prefixes and on the rests */
  lemma CancelPrefix(x: string, y: string, r1: string, r2: string)
    requires x + r1 == y + r2 && |x| == |y|
    ensures x == y && r1 == r2
  {
    assert x == (x + r1)[..|x|] && y == (y + r2)[..|y|];
    assert r1 == (x + r1)[|x|..] && r2 == (y + r2)[|y|..];
  }

  /** Two equal texts that start with one character each agree on those
      characters and on what follows */
  lemma HeadPrefix(c: char, d: char, x: string, y: string, r1: string, r2: string)
    requires ([c] + x) + r1 == ([d] + y) + r2
    ensures c == d && x + r1 == y + r2
  {
    assert c == (([c] + x) + r1)[0] && d == (([d] + y) + r2)[0];
    assert x + r1 == (([c] + x) + r1)[1..] && y + r2 == (([d] + y) + r2)[1..];
  }

  lemma Assoc(x: string, y: string, z: string)
    ensures (x + y) + z == x + (y + z)
  {
  }

  /** The unary code is prefix-free */
  lemma UnaryPrefix(a: nat, b: nat, r1: string, r2: string)
    requires Unary(a) + r1 == Unary(b) + r2
    ensures a == b && r1 == r2
  {
    var m := if a < b then a else b;
    assert (Unary(a) + r1)[m] == (Unary(b) + r2)[m];
    assert (Unary(a) + r1)[m] == Unary(a)[m] && (Unary(b) + r2)[m] == Unary(b)[m];
    if a != b {
      assert false;
    }
    CancelPrefix(Unary(a), Unary(b), r1, r2);
  }

  function Sign(i: int): char {
    if i >= 0 then '+' else '-'
  }

  function Magnitude(i: int): nat {
    if i >= 0 then i else -i
  }

  /** An integer: its sign, then its magnitude in unary */
  function IntCode(i: int): string {
    [Sign(i)] + Unary(Magnitude(i))
  }

  /** The integer code is prefix-free */
  lemma IntPrefix(i: int, j: int, r1: string, r2: string)
    requires IntCode(i) + r1 == IntCode(j) + r2
    ensures i == j && r1 == r2
  {
    HeadPrefix(Sign(i), Sign(j), Unary(Magnitude(i)), Unary(Magnitude(j)), r1, r2);
    UnaryPrefix(Magnitude(i), Magnitude(j), r1, r2);
  }

  /** A string: its length in unary, then its characters */
  function StrCode(s: string): string {
    Unary(|s|) + s
  }

  /** The string code is prefix-free */
  lemma StrPrefix(s: string, t: string, r1: string, r2: string)
    requires StrCode(s) + r1 == StrCode(t) + r2
    ensures s == t && r1 == r2
  {
    assert StrCode(s) + r1 == Unary(|s|) + (s + r1);
    assert StrCode(t) + r2 == Unary(|t|) + (t + r2);
    UnaryPrefix(|s|, |t|, s + r1, t + r2);
    CancelPrefix(s, t, r1, r2);
  }

  /** A numerator and a number of decimals that spell `r`, when some do */
  ghost function DecimalOf(r: real): (p: (int, nat))
    ensures (exists m: int, k: nat :: FileCache.DecimalNumber(m, k) == r) ==>
              FileCache.DecimalNumber(p.0, p.1) == r
  {
    if exists m: int, k: nat :: FileCache.DecimalNumber(m, k) == r then
      var m: int, k: nat :| FileCache.DecimalNumber(m, k) == r; (m, k)
    else (0, 0)
  }

  /** The keys of a dictionary in some order */
  ghost function KeyOrder(keys: set<string>): (r: seq<string>)
    ensures forall k :: k in r <==> k in keys
    decreases keys
  {
    if keys == {} then []
    else
      var k :| k in keys;
      [k] + KeyOrder(keys - {k})
  }

  /** The letter that opens the code of each kind of value */
  function Tag(v: Value): (c: char)
    ensures c != '[' && c != '{'
  {
    match v
    case VNone => 'n'
    case VBool(b) => if b then 't' else 'f'
    case VInt(_) => 'i'
    case VFloat(_) => 'd'
    case VStr(_) => 's'
    case VList(_) => 'l'
    case VDict(_) => 'm'
  }

  /** The code of a value: its tag, then its body */
  ghost function Enc(v: Value): (r: string)
    ensures |r| > 0 && r[0] == Tag(v)
    decreases v, 2
  {
    [Tag(v)] + Body(v)
  }

  ghost function Body(v: Value): string
    decreases v, 1
  {
    match v
    case VNone => ""
    case VBool(_) => ""
    case VInt(i) => IntCode(i)
    case VFloat(r) => IntCode(DecimalOf(r).0) + Unary(DecimalOf(r).1)
    case VStr(s) => StrCode(s)
    case VList(items) => Unary(|items|) + ItemsCode(v, 0)
    case VDict(entries) => Unary(|KeyOrder(entries.Keys)|) + EntriesCode(v, KeyOrder(entries.Keys))
  }

  /** The codes of the items of a list from index `j` on */
  ghost function ItemsCode(v: Value, j: nat): string
    requires v.VList? && j <= |v.items|
    decreases v, 0, |v.items| - j
  {
    if j == |v.items| then "" else Enc(v.items[j]) + ItemsCode(v, j + 1)
  }

  /** The codes of the entries of a dictionary for the keys `keys`, in
      that order, each as its key then the code of its value */
  ghost function EntriesCode(v: Value, keys: seq<string>): string
    requires v.VDict? && forall i :: 0 <= i < |keys| ==> keys[i] in v.entries
    decreases v, 0, |keys|
  {
    if keys == [] then ""
    else StrCode(keys[0]) + (Enc(v.entries[keys[0]]) + EntriesCode(v, keys[1..]))
  }

  /** The code is prefix-free on JSON values: a text starts with the code of
      at most one of them */
  lemma EncPrefix(v: Value, w: Value, r1: string, r2: string)
    requires FileCache.Jsonable(v) && FileCache.Jsonable(w)
    requires Enc(v) + r1 == Enc(w) + r2
    ensures v == w && r1 == r2
    decreases v, 1
  {
    HeadPrefix(Tag(v), Tag(w), Body(v), Body(w), r1, r2);
    match v
    case VNone =>
      assert "" + r1 == r1 && "" + r2 == r2;
    case VBool(_) =>
      assert "" + r1 == r1 && "" + r2 == r2;
    case VInt(i) =>
      IntPrefix(i, w.i, r1, r2);
    case VFloat(r) =>
      var (m, k) := DecimalOf(r);
      var (m', k') := DecimalOf(w.r);
      Assoc(IntCode(m), Unary(k), r1);
      Assoc(IntCode(m'), Unary(k'), r2);
      IntPrefix(m, m', Unary(k) + r1, Unary(k') + r2);
      UnaryPrefix(k, k', r1, r2);
    case VStr(s) =>
      StrPrefix(s, w.s, r1, r2);
    case VList(_) =>
      ListPrefix(v, w, r1, r2);
    case VDict(_) =>
      DictPrefix(v, w, r1, r2);
  }

  /** The body of a list: its length, then its items */
  lemma ListPrefix(v: Value, w: Value, r1: string, r2: string)
    requires FileCache.Jsonable(v) && FileCache.Jsonable(w) && v.VList? && w.VList?
    requires Body(v) + r1 == Body(w) + r2
    ensures v == w && r1 == r2
    decreases v, 0, |v.items| + 1
  {
    Assoc(Unary(|v.items|), ItemsCode(v, 0), r1);
    Assoc(Unary(|w.items|), ItemsCode(w, 0), r2);
    UnaryPrefix(|v.items|, |w.items|, ItemsCode(v, 0) + r1, ItemsCode(w, 0) + r2);
    ItemsPrefix(v, w, 0, r1, r2);
    assert v.items == v.items[0..] && w.items == w.items[0..];
  }

  /** The body of a dictionary: its size, then its entries in key order */
  lemma DictPrefix(v: Value, w: Value, r1: string, r2: string)
    requires FileCache.Jsonable(v) && FileCache.Jsonable(w) && v.VDict? && w.VDict?
    requires Body(v) + r1 == Body(w) + r2
    ensures v == w && r1 == r2
    decreases v, 0, |KeyOrder(v.entries.Keys)| + 1
  {
    var keys, keys' := KeyOrder(v.entries.Keys), KeyOrder(w.entries.Keys);
    assert Body(v) == Unary(|keys|) + EntriesCode(v, keys);
    assert Body(w) == Unary(|keys'|) + EntriesCode(w, keys');
    Assoc(Unary(|keys|), EntriesCode(v, keys), r1);
    Assoc(Unary(|keys'|), EntriesCode(w, keys'), r2);
    UnaryPrefix(|keys|, |keys'|, EntriesCode(v, keys) + r1, EntriesCode(w, keys') + r2);
    EntriesPrefix(v, w, keys, keys', r1, r2);
    assert v.entries.Keys == w.entries.Keys;
    forall k | k in v.entries
      ensures v.entries[k] == w.entries[k]
    {
      var i :| 0 <= i < |keys| && keys[i] == k;
    }
  }

  /** Item by item, the same for the rest of two lists of the same length */
  lemma ItemsPrefix(v: Value, w: Value, j: nat, r1: string, r2: string)
    requires FileCache.Jsonable(v) && FileCache.Jsonable(w)
    requires v.VList? && w.VList? && |v.items| == |w.items| && j <= |v.items|
    requires ItemsCode(v, j) + r1 == ItemsCode(w, j) + r2
    ensures v.items[j..] == w.items[j..] && r1 == r2
    decreases v, 0, |v.items| - j
  {
    if j < |v.items| {
      var a, b := v.items[j], w.items[j];
      Assoc(Enc(a), ItemsCode(v, j + 1), r1);
      Assoc(Enc(b), ItemsCode(w, j + 1), r2);
      EncPrefix(a, b, ItemsCode(v, j + 1) + r1, ItemsCode(w, j + 1) + r2);
      ItemsPrefix(v, w, j + 1, r1, r2);
      assert v.items[j..] == [a] + v.items[j + 1..];
      assert w.items[j..] == [b] + w.items[j + 1..];
    } else {
      assert "" + r1 == r1 && "" + r2 == r2;
    }
  }

  /** Entry by entry, the same for two key sequences of the same length */
  lemma EntriesPrefix(v: Value, w: Value, keys: seq<string>, keys': seq<string>, r1: string, r2: string)
    requires FileCache.Jsonable(v) && FileCache.Jsonable(w) && v.VDict? && w.VDict?
    requires forall i :: 0 <= i < |keys| ==> keys[i] in v.entries
    requires forall i :: 0 <= i < |keys'| ==> keys'[i] in w.entries
    requires |keys| == |keys'|
    requires EntriesCode(v, keys) + r1 == EntriesCode(w, keys') + r2
    ensures keys == keys' && r1 == r2
    ensures forall i :: 0 <= i < |keys| ==> v.entries[keys[i]] == w.entries[keys'[i]]
    decreases v, 0, |keys|
  {
    if keys == [] {
      assert "" + r1 == r1 && "" + r2 == r2;
    } else {
      var a, b := v.entries[keys[0]], w.entries[keys'[0]];
      EntryPrefix(keys[0], keys'[0], a, b, EntriesCode(v, keys[1..]), EntriesCode(w, keys'[1..]), r1, r2);
      EntriesPrefix(v, w, keys[1..], keys'[1..], r1, r2);
      assert keys == [keys[0]] + keys[1..] && keys' == [keys'[0]] + keys'[1..];
      forall i | 1 <= i < |keys|
        ensures v.entries[keys[i]] == w.entries[keys'[i]]
      {
        assert keys[i] == keys[1..][i - 1] && keys'[i] == keys'[1..][i - 1];
      }
    }
  }

  /** One entry: its key and the code of its value */
  lemma EntryPrefix(k: string, k': string, a: Value, b: Value, rest1: string, rest2: string, r1: string, r2: string)
    requires FileCache.Jsonable(a) && FileCache.Jsonable(b)
    requires (StrCode(k) + (Enc(a) + rest1)) + r1 == (StrCode(k') + (Enc(b) + rest2)) + r2
    ensures k == k' && a == b && rest1 + r1 == rest2 + r2
    decreases a, 2
  {
    Assoc(StrCode(k), Enc(a) + rest1, r1);
    Assoc(Enc(a), rest1, r1);
    Assoc(StrCode(k'), Enc(b) + rest2, r2);
    Assoc(Enc(b), rest2, r2);
    StrPrefix(k, k', Enc(a) + (rest1 + r1), Enc(b) + (rest2 + r2));
    EncPrefix(a, b, rest1 + r1, rest2 + r2);
  }

  /** `dumps`: the empty list and dict as `[]` and `{}`, everything else in
      the code */
  ghost function Dumps(v: Value): string {
    if v == VList([]) then "[]" else if v == VDict(map[]) then "{}" else Enc(v)
  }

  /** `loads`: `[]` and `{}`, or the JSON value whose code the text is */
  ghost function Loads(t: string): Option<Value> {
    if t == "[]" then Some(VList([]))
    else if t == "{}" then Some(VDict(map[]))
    else if exists v :: FileCache.Jsonable(v) && Enc(v) == t then
      Some(var v :| FileCache.Jsonable(v) && Enc(v) == t; v)
    else None
  }

  /** `Loads` inverts `Dumps` on every JSON value */
  lemma RoundTrip(v: Value)
    requires FileCache.Jsonable(v)
    ensures Loads(Dumps(v)) == Some(v) && Dumps(v) != ""
  {
    if v != VList([]) && v != VDict(map[]) {
      var t := Enc(v);
      assert t[0] == Tag(v);
      assert t != "[]" && t != "{}";
      var x := Loads(t).value;
      assert FileCache.Jsonable(x) && Enc(x) == t;
      assert Enc(x) + "" == Enc(v) + "";
      EncPrefix(x, v, "", "");
    }
  }

  /** The law the cache lemmas assume is met by some codec */
  lemma LawIsSatisfiable()
    ensures exists codec :: FileCache.Lawful(codec)
  {
    var codec := FileCache.Codec(v => Dumps(v), t => Loads(t));
    forall v | FileCache.Jsonable(v)
      ensures codec.loads(codec.dumps(v)) == Some(v) && codec.dumps(v) != ""
    {
      RoundTrip(v);
    }
    assert FileCache.Jsonable(VList([])) && FileCache.Jsonable(VDict(map[]));
    assert FileCache.Lawful(codec);
  }
}
