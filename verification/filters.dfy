/** The query-filter expressions of `DataFilter.filter` and the `duration`
    constructor: a filter text such as `"<=3"` holds a comparison operator and
    a typed literal, which are found by two independent leftmost regular
    expression searches and turned into a predicate on field values. */
module Filters {

  import opened Wrappers
  import Text

  /** The operators of `EXP_FORMAT`, `(?:[<>]=?|=)` */
  datatype Op = Lt | Le | Gt | Ge | Eq

  /** The comparison methods the operators are mapped to by `FILTER_EXP` */
  datatype Method = GtMethod | GeMethod | LtMethod | LeMethod | EqMethod

  /** The `data_class` keys of `PATTERNS` */
  datatype DataClass = IntClass | FloatClass | DurationClass | StrClass

  /** A typed value: the parsed literal, or a field value it is compared with */
  datatype Operand =
    | IntVal(i: int)
    | FloatVal(r: real)
    | DurationVal(seconds: int)
    | StrVal(s: string)

  /** The callable that `filter` returns: either `lambda val: True`, or the
      bound comparison method of the parsed literal */
  datatype Pred = AcceptAll | Bound(compare: Method, value: Operand)

  function FilterExp(op: Op): Method {
    match op
    case Lt => GtMethod
    case Le => GeMethod
    case Gt => LtMethod
    case Ge => LeMethod
    case Eq => EqMethod
  }

  function ClassOf(v: Operand): DataClass {
    match v
    case IntVal(_) => IntClass
    case FloatVal(_) => FloatClass
    case DurationVal(_) => DurationClass
    case StrVal(_) => StrClass
  }

  // ---------------------------------------------------------------------------
  // Ordering of operands of the same class

  /** Python's `<` on `str`: code point by code point, a proper prefix first */
  predicate StrLess(a: string, b: string) {
    if |a| == 0 then |b| > 0
    else if |b| == 0 then false
    else if a[0] != b[0] then a[0] < b[0]
    else StrLess(a[1..], b[1..])
  }

  predicate Less(a: Operand, b: Operand)
    requires ClassOf(a) == ClassOf(b)
  {
    match a
    case IntVal(x) => x < b.i
    case FloatVal(x) => x < b.r
    case DurationVal(x) => x < b.seconds
    case StrVal(x) => StrLess(x, b.s)
  }

  /** `value.method(x)`: the bound method called on a field value */
  predicate Invoke(m: Method, value: Operand, x: Operand)
    requires ClassOf(value) == ClassOf(x)
  {
    match m
    case GtMethod => Less(x, value)
    case GeMethod => Less(x, value) || x == value
    case LtMethod => Less(value, x)
    case LeMethod => Less(value, x) || x == value
    case EqMethod => value == x
  }

  /** Python's string order is a strict total order: irreflexive, and of
      two different strings exactly one comes first */
  lemma {:induction false} StrLessTrichotomy(a: string, b: string)
    ensures a == b ==> !StrLess(a, b)
    ensures a != b ==> (StrLess(a, b) <==> !StrLess(b, a))
    decreases |a|
  {
    if |a| > 0 && |b| > 0 && a[0] == b[0] {
      StrLessTrichotomy(a[1..], b[1..]);
      if a[1..] == b[1..] {
        assert a == [a[0]] + a[1..] && b == [b[0]] + b[1..];
      }
    }
  }

  /** The five methods `FILTER_EXP` names are the comparisons of one total
      order: exactly one of `__gt__`, `__lt__` and `__eq__` holds, and
      `__ge__` and `__le__` add equality to `__gt__` and `__lt__` */
  lemma InvokeTrichotomy(value: Operand, x: Operand)
    requires ClassOf(value) == ClassOf(x)
    ensures Invoke(GtMethod, value, x) || Invoke(LtMethod, value, x) || Invoke(EqMethod, value, x)
    ensures !(Invoke(GtMethod, value, x) && Invoke(LtMethod, value, x))
    ensures !(Invoke(GtMethod, value, x) && Invoke(EqMethod, value, x))
    ensures !(Invoke(LtMethod, value, x) && Invoke(EqMethod, value, x))
    ensures Invoke(GeMethod, value, x) <==> Invoke(GtMethod, value, x) || Invoke(EqMethod, value, x)
    ensures Invoke(LeMethod, value, x) <==> Invoke(LtMethod, value, x) || Invoke(EqMethod, value, x)
  {
    if value.StrVal? {
      StrLessTrichotomy(x.s, value.s);
    }
  }

  /** A predicate applies to field values of the literal's class */
  predicate Applicable(p: Pred, x: Operand) {
    p.Bound? ==> ClassOf(p.value) == ClassOf(x)
  }

  predicate Apply(p: Pred, x: Operand)
    requires Applicable(p, x)
  {
    match p
    case AcceptAll => true
    case Bound(m, value) => Invoke(m, value, x)
  }

  // ---------------------------------------------------------------------------
  // Leftmost search

  /** A matcher gives, for a start position, the end of the match there */
  type Matcher = (string, nat) -> Option<nat>

  /** `re.search`: the leftmost start at or after `i` where `m` matches, with
      the end of that match */
  function Leftmost(s: string, m: Matcher, i: nat): (r: Option<(nat, nat)>)
    requires i <= |s| + 1
    ensures r.Some? ==> i <= r.value.0 <= |s| && m(s, r.value.0) == Some(r.value.1)
    ensures r.Some? ==> forall j :: i <= j < r.value.0 ==> m(s, j).None?
    ensures r.None? ==> forall j :: i <= j <= |s| ==> m(s, j).None?
    decreases |s| + 1 - i
  {
    if i > |s| then None
    else if m(s, i).Some? then Some((i, m(s, i).value))
    else Leftmost(s, m, i + 1)
  }

  /** A match at `k` with none before it is the leftmost match */
  lemma LeftmostAt(s: string, m: Matcher, k: nat)
    requires k <= |s| && m(s, k).Some?
    requires forall j :: 0 <= j < k ==> m(s, j).None?
    ensures Leftmost(s, m, 0) == Some((k, m(s, k).value))
  {
  }

  /** `[<>]=?|=` at position `i`: the alternatives are tried in order and the
      optional `=` is taken when it is there */
  function OpMatchAt(s: string, i: nat): (r: Option<nat>)
    ensures r.Some? ==> i < r.value <= |s|
  {
    if i < |s| && (s[i] == '<' || s[i] == '>') then
      Some(if i + 1 < |s| && s[i + 1] == '=' then i + 2 else i + 1)
    else if i < |s| && s[i] == '=' then Some(i + 1)
    else None
  }

  // ---------------------------------------------------------------------------
  // The texts each pattern matches

  /** The texts `[-]?[0-9]+` matches */
  predicate IntShape(t: string) {
    |t| > 0 && (if t[0] == '-' then |t| > 1 && Text.AllDigits(t[1..]) else Text.AllDigits(t))
  }

  /** The texts `([0-9]*[.])?[0-9]+` matches: digits, or digits, a point and
      at least one digit */
  predicate FloatShape(t: string) {
    match Text.DotIndex(t)
    case None => |t| > 0 && Text.AllDigits(t)
    case Some(k) => Text.AllDigits(t[..k]) && k + 1 < |t| && Text.AllDigits(t[k + 1..])
  }

  /** The texts `[0-9]+:[0-5][0-9]` matches */
  predicate DurationShape(t: string) {
    && |t| >= 4
    && Text.AllDigits(t[..|t| - 3])
    && t[|t| - 3] == ':' && '0' <= t[|t| - 2] <= '5' && Text.IsDigit(t[|t| - 1])
  }

  /** The texts `.*` matches: no newline */
  predicate StrShape(t: string) {
    forall j :: 0 <= j < |t| ==> t[j] != '\n'
  }

  // ---------------------------------------------------------------------------
  // Matching at a position

  /** `[-]?[0-9]+` at position `i`: the longest text from `i` on that the
      pattern matches, none when no text there does */
  function IntMatchAt(s: string, i: nat): (r: Option<nat>)
    ensures r.Some? ==> i < r.value <= |s| && IntShape(s[i..r.value])
    ensures r.Some? ==> forall e :: r.value < e <= |s| ==> !IntShape(s[i..e])
    ensures r.None? ==> forall e :: i <= e <= |s| ==> !IntShape(s[i..e])
  {
    if i + 1 < |s| && s[i] == '-' && Text.IsDigit(s[i + 1]) then
      IntRunLongest(s, i, i + 1);
      Some(Text.RunEnd(s, i + 1))
    else if i < |s| && Text.IsDigit(s[i]) then
      IntRunLongest(s, i, i);
      Some(Text.RunEnd(s, i))
    else
      NoIntShape(s, i);
      None
  }

  /** The digit run from `a`, after an optional `-` at `i`, is the longest
      integer text at `i` */
  lemma IntRunLongest(s: string, i: nat, a: nat)
    requires a < |s| && Text.IsDigit(s[a])
    requires a == i || (a == i + 1 && s[i] == '-')
    ensures var e := Text.RunEnd(s, a); IntShape(s[i..e]) && forall e' :: e < e' <= |s| ==> !IntShape(s[i..e'])
  {
    var e := Text.RunEnd(s, a);
    var t := s[i..e];
    if a == i + 1 {
      assert t[1..] == s[a..e];
    } else {
      assert t[0] == s[i];
    }
    forall e' | e < e' <= |s| ensures !IntShape(s[i..e']) {
      var t' := s[i..e'];
      assert t'[e - i] == s[e] && !Text.IsDigit(s[e]);
      if a == i + 1 {
        assert t'[0] == '-' && t'[1..][e - i - 1] == s[e];
      } else {
        assert t'[0] == s[i] && s[i] != '-';
      }
    }
  }

  /** Without a digit, or a `-` and a digit, at `i` no integer text starts
      there */
  lemma NoIntShape(s: string, i: nat)
    requires !(i + 1 < |s| && s[i] == '-' && Text.IsDigit(s[i + 1]))
    requires !(i < |s| && Text.IsDigit(s[i]))
    ensures forall e :: i <= e <= |s| ==> !IntShape(s[i..e])
  {
    forall e | i <= e <= |s| ensures !IntShape(s[i..e]) {
      var t := s[i..e];
      if |t| > 0 {
        assert t[0] == s[i];
        if t[0] == '-' && |t| > 1 {
          assert t[1..][0] == s[i + 1];
        }
      }
    }
  }

  /** `([0-9]*[.])?[0-9]+` at position `i`: the optional group is tried first
      and needs digits after its point, otherwise a bare digit run; the
      result is the longest text from `i` on that the pattern matches */
  function FloatMatchAt(s: string, i: nat): (r: Option<nat>)
    ensures r.Some? ==> i < r.value <= |s| && FloatShape(s[i..r.value])
    ensures r.Some? ==> forall e :: r.value < e <= |s| ==> !FloatShape(s[i..e])
    ensures r.None? ==> forall e :: i <= e <= |s| ==> !FloatShape(s[i..e])
  {
    if i > |s| then None
    else
      var j := Text.RunEnd(s, i);
      if j + 1 < |s| && s[j] == '.' && Text.IsDigit(s[j + 1]) then
        FloatPointedLongest(s, i, j);
        Some(Text.RunEnd(s, j + 1))
      else if j > i then
        FloatDigitsLongest(s, i, j);
        Some(j)
      else
        NoFloatShape(s, i);
        None
  }

  /** A point at `k` with none before it is the first point */
  lemma DotIndexAt(t: string, k: nat)
    requires k < |t| && t[k] == '.'
    requires forall j :: 0 <= j < k ==> Text.IsDigit(t[j])
    ensures Text.DotIndex(t) == Some(k)
  {
    assert forall j :: 0 <= j < k ==> t[j] != '.';
  }

  /** Every text from `i` past a point that ends the digit run at `i` has
      its first point there */
  lemma PointAfterRun(s: string, i: nat, j: nat)
    requires i <= |s| && j == Text.RunEnd(s, i) && j < |s| && s[j] == '.'
    ensures forall e' :: j < e' <= |s| ==> Text.DotIndex(s[i..e']) == Some(j - i)
  {
    var k := j - i;
    forall e' | j < e' <= |s| ensures Text.DotIndex(s[i..e']) == Some(k) {
      var t := s[i..e'];
      assert forall m :: 0 <= m < k ==> t[m] == s[i + m];
      DotIndexAt(t, k);
    }
  }

  /** Digits, a point and digits, each run taken whole, form the longest
      float text */
  lemma FloatPointedLongest(s: string, i: nat, j: nat)
    requires i <= |s| && j == Text.RunEnd(s, i)
    requires j + 1 < |s| && s[j] == '.' && Text.IsDigit(s[j + 1])
    ensures var e := Text.RunEnd(s, j + 1);
      FloatShape(s[i..e]) && forall e' :: e < e' <= |s| ==> !FloatShape(s[i..e'])
  {
    var e := Text.RunEnd(s, j + 1);
    PointedShape(s, i, j, e);
    PointedStops(s, i, j, e);
  }

  /** Digits, a point and the digit run after it form a float text */
  lemma PointedShape(s: string, i: nat, j: nat, e: nat)
    requires i <= |s| && j == Text.RunEnd(s, i)
    requires j + 1 < |s| && s[j] == '.' && Text.IsDigit(s[j + 1])
    requires e == Text.RunEnd(s, j + 1)
    ensures FloatShape(s[i..e])
  {
    var k := j - i;
    PointAfterRun(s, i, j);
    var t := s[i..e];
    assert Text.DotIndex(t) == Some(k);
    assert t[..k] == s[i..j] && t[k + 1..] == s[j + 1..e];
    assert Text.AllDigits(t[..k]) by {
      forall m | 0 <= m < k ensures Text.IsDigit(t[..k][m]) {
        assert t[..k][m] == s[i + m];
      }
    }
    var b := t[k + 1..];
    assert Text.AllDigits(b) by {
      forall m | 0 <= m < |b| ensures Text.IsDigit(b[m]) {
        assert b[m] == s[j + 1 + m];
      }
    }
  }

  /** A float text that starts at `i` cannot run past the digits after the
      point, since the first point is fixed */
  lemma PointedStops(s: string, i: nat, j: nat, e: nat)
    requires i <= |s| && j == Text.RunEnd(s, i)
    requires j + 1 < |s| && s[j] == '.' && Text.IsDigit(s[j + 1])
    requires e == Text.RunEnd(s, j + 1)
    ensures forall e' :: e < e' <= |s| ==> !FloatShape(s[i..e'])
  {
    var k := j - i;
    PointAfterRun(s, i, j);
    forall e' | e < e' <= |s| ensures !FloatShape(s[i..e']) {
      var t' := s[i..e'];
      assert Text.DotIndex(t') == Some(k);
      assert t'[k + 1..][e - j - 1] == s[e] && !Text.IsDigit(s[e]);
    }
  }

  /** A digit run not followed by a point and a digit is the longest float
      text */
  lemma FloatDigitsLongest(s: string, i: nat, j: nat)
    requires i <= |s| && j == Text.RunEnd(s, i) && i < j
    requires !(j + 1 < |s| && s[j] == '.' && Text.IsDigit(s[j + 1]))
    ensures FloatShape(s[i..j]) && forall e' :: j < e' <= |s| ==> !FloatShape(s[i..e'])
  {
    var t := s[i..j];
    assert forall m :: 0 <= m < |t| ==> t[m] == s[i + m];
    assert Text.DotIndex(t).None?;
    forall e' | j < e' <= |s| ensures !FloatShape(s[i..e']) {
      var t' := s[i..e'];
      var n := j - i;
      assert t'[n] == s[j] && !Text.IsDigit(s[j]);
      match Text.DotIndex(t')
      case None =>
      case Some(k) =>
        if k > n {
          assert t'[..k][n] == s[j];
        } else if k + 1 < |t'| {
          assert t'[k + 1..][0] == s[j + 1];
        }
    }
  }

  /** Without a digit, or a point and a digit, at `i` no float text starts
      there */
  lemma NoFloatShape(s: string, i: nat)
    requires i <= |s| && Text.RunEnd(s, i) == i
    requires !(i + 1 < |s| && s[i] == '.' && Text.IsDigit(s[i + 1]))
    ensures forall e :: i <= e <= |s| ==> !FloatShape(s[i..e])
  {
    forall e | i <= e <= |s| ensures !FloatShape(s[i..e]) {
      var t := s[i..e];
      if |t| > 0 {
        assert t[0] == s[i] && !Text.IsDigit(s[i]);
        match Text.DotIndex(t)
        case None =>
        case Some(k) =>
          if k > 0 {
            assert t[..k][0] == s[i];
          } else if k + 1 < |t| {
            assert t[k + 1..][0] == s[i + 1];
          }
      }
    }
  }

  /** `[0-9]+:[0-5][0-9]` at position `i`: the one text from `i` on that the
      pattern matches, none when no text there does */
  function DurationMatchAt(s: string, i: nat): (r: Option<nat>)
    ensures r.Some? ==> i < r.value <= |s| && DurationShape(s[i..r.value])
    ensures r.Some? ==> forall e :: r.value < e <= |s| ==> !DurationShape(s[i..e])
    ensures r.None? ==> forall e :: i <= e <= |s| ==> !DurationShape(s[i..e])
  {
    if i > |s| then None
    else
      var j := Text.RunEnd(s, i);
      if j > i && j + 2 < |s| && s[j] == ':' && '0' <= s[j + 1] <= '5' && Text.IsDigit(s[j + 2]) then
        DurationShapeAt(s, i, j);
        Some(j + 3)
      else
        NoDurationShape(s, i);
        None
  }

  /** Digits, `:` and two digits form the only duration text at `i` */
  lemma DurationShapeAt(s: string, i: nat, j: nat)
    requires i <= |s| && j == Text.RunEnd(s, i) && i < j
    requires j + 2 < |s| && s[j] == ':' && '0' <= s[j + 1] <= '5' && Text.IsDigit(s[j + 2])
    ensures DurationShape(s[i..j + 3]) && forall e' :: j + 3 < e' <= |s| ==> !DurationShape(s[i..e'])
  {
    var t := s[i..j + 3];
    assert t[..|t| - 3] == s[i..j];
    forall e' | j + 3 < e' <= |s| ensures !DurationShape(s[i..e']) {
      var t' := s[i..e'];
      assert t'[..|t'| - 3][j - i] == s[j];
    }
  }

  /** When the digits at `i` are not followed by `:` and two digits, no
      duration text starts there */
  lemma NoDurationShape(s: string, i: nat)
    requires i <= |s|
    requires var j := Text.RunEnd(s, i);
      !(j > i && j + 2 < |s| && s[j] == ':' && '0' <= s[j + 1] <= '5' && Text.IsDigit(s[j + 2]))
    ensures forall e :: i <= e <= |s| ==> !DurationShape(s[i..e])
  {
    forall e | i <= e <= |s| ensures !DurationShape(s[i..e]) {
      DurationShapeRun(s, i, e);
    }
  }

  /** A duration text from `i` is the digit run at `i`, a `:` and two digits */
  lemma DurationShapeRun(s: string, i: nat, e: nat)
    requires i <= e <= |s|
    ensures DurationShape(s[i..e]) ==>
              var j := e - 3;
              && i < j && j + 2 < |s| && Text.RunEnd(s, i) == j
              && s[j] == ':' && '0' <= s[j + 1] <= '5' && Text.IsDigit(s[j + 2])
  {
    var t := s[i..e];
    if DurationShape(t) {
      var n := |t| - 3;
      forall j | i <= j < i + n ensures Text.IsDigit(s[j]) {
        assert t[..n][j - i] == s[j];
      }
      assert s[i + n] == t[n] && s[i + n + 1] == t[n + 1] && s[i + n + 2] == t[n + 2];
      Text.RunEndOver(s, i, n);
    }
  }

  /** The end of the line that position `i` is on */
  function LineEnd(s: string, i: nat): (r: nat)
    requires i <= |s|
    ensures i <= r <= |s|
    ensures forall j :: i <= j < r ==> s[j] != '\n'
    ensures r == |s| || s[r] == '\n'
    decreases |s| - i
  {
    if i < |s| && s[i] != '\n' then LineEnd(s, i + 1) else i
  }

  /** `.*` at position `i`: every character up to the first newline, the
      longest text from `i` on without a newline */
  function StrMatchAt(s: string, i: nat): (r: Option<nat>)
    ensures r.Some? <==> i <= |s|
    ensures r.Some? ==> i <= r.value <= |s| && StrShape(s[i..r.value])
    ensures r.Some? ==> forall e :: r.value < e <= |s| ==> !StrShape(s[i..e])
  {
    if i > |s| then None
    else
      var e := LineEnd(s, i);
      assert forall j :: 0 <= j < e - i ==> s[i..e][j] == s[i + j];
      assert forall e' :: e < e' <= |s| ==> s[i..e'][e - i] == s[e];
      Some(e)
  }

  function MatcherOf(cls: DataClass): Matcher {
    match cls
    case IntClass => IntMatchAt
    case FloatClass => FloatMatchAt
    case DurationClass => DurationMatchAt
    case StrClass => StrMatchAt
  }

  /** The operator found by `re.search(EXP_FORMAT, s)`: none when the text
      has no `<`, `>` or `=`, otherwise the one spelled at the first of them */
  function SearchOp(s: string): (r: Option<Op>)
    ensures r.None? <==> forall j :: 0 <= j < |s| ==> !IsOpChar(s[j])
    ensures r.Some? ==> exists k :: FirstOpAt(s, k) && r.value == OpAt(s, k)
  {
    match Leftmost(s, OpMatchAt, 0)
    case None =>
      NoOpMatchNoOpChar(s, |s| + 1);
      None
    case Some((k, e)) =>
      OpMatchToken(s, k);
      NoOpMatchNoOpChar(s, k);
      Some(OpOfToken(s[k..e]))
  }

  /** `k` holds the first operator character of `s` */
  predicate FirstOpAt(s: string, k: nat) {
    k < |s| && IsOpChar(s[k]) && forall j :: 0 <= j < k ==> !IsOpChar(s[j])
  }

  /** Where the operator pattern matches nothing there is no operator
      character */
  lemma NoOpMatchNoOpChar(s: string, n: nat)
    requires forall j :: 0 <= j < n && j <= |s| ==> OpMatchAt(s, j).None?
    ensures forall j :: 0 <= j < n && j < |s| ==> !IsOpChar(s[j])
  {
    forall j | 0 <= j < n && j < |s| ensures !IsOpChar(s[j]) {
      assert OpMatchAt(s, j).None?;
    }
  }

  /** The text the operator pattern matches at an operator character is a
      token spelling the operator there */
  lemma OpMatchToken(s: string, k: nat)
    requires k < |s| && IsOpChar(s[k])
    ensures OpMatchAt(s, k).Some?
    ensures var e := OpMatchAt(s, k).value; OpToken(s[k..e]) && OpOfToken(s[k..e]) == OpAt(s, k)
  {
    var e := OpMatchAt(s, k).value;
    if e == k + 2 {
      assert s[k..e] == [s[k], s[k + 1]];
    } else {
      assert s[k..e] == [s[k]];
    }
  }

  /** The texts each class's pattern matches */
  predicate Shape(cls: DataClass, t: string) {
    match cls
    case IntClass => IntShape(t)
    case FloatClass => FloatShape(t)
    case DurationClass => DurationShape(t)
    case StrClass => StrShape(t)
  }

  /** `k` is the leftmost position where the class's pattern matches, and
      `t` is the longest text the pattern matches there */
  ghost predicate LeftmostLongest(s: string, cls: DataClass, k: nat, t: string) {
    && k + |t| <= |s| && s[k..k + |t|] == t && Shape(cls, t)
    && (forall e :: k + |t| < e <= |s| ==> !Shape(cls, s[k..e]))
    && (forall j, e :: 0 <= j < k && j <= e <= |s| ==> !Shape(cls, s[j..e]))
  }

  /** The text matched by `re.search(PATTERNS[cls], s)`: the longest text
      the pattern matches at the leftmost position where it matches at all,
      and none exactly when no part of `s` matches */
  function SearchValue(s: string, cls: DataClass): (r: Option<string>)
    ensures r.Some? ==> Shape(cls, r.value) && exists k :: LeftmostLongest(s, cls, k, r.value)
    ensures r.None? <==> forall k, e :: 0 <= k <= e <= |s| ==> !Shape(cls, s[k..e])
  {
    match Leftmost(s, MatcherOf(cls), 0)
    case None =>
      NoMatchNoShape(s, cls, |s| + 1);
      None
    case Some((k, e)) =>
      MatchIsLongest(s, cls, k, e);
      NoMatchNoShape(s, cls, k);
      assert LeftmostLongest(s, cls, k, s[k..e]);
      Some(s[k..e])
  }

  /** What a class's matcher finds at `k` is the longest text there in the
      pattern's language */
  lemma MatchIsLongest(s: string, cls: DataClass, k: nat, e: nat)
    requires MatcherOf(cls)(s, k) == Some(e)
    ensures k <= e <= |s| && Shape(cls, s[k..e])
    ensures forall e' :: e < e' <= |s| ==> !Shape(cls, s[k..e'])
  {
    match cls
    case IntClass =>
    case FloatClass =>
    case DurationClass =>
    case StrClass =>
  }

  /** Where a class's matcher finds nothing, no text in the pattern's
      language starts */
  lemma NoMatchNoShape(s: string, cls: DataClass, n: nat)
    requires forall j :: 0 <= j < n && j <= |s| ==> MatcherOf(cls)(s, j).None?
    ensures forall j, e :: 0 <= j < n && j <= e <= |s| ==> !Shape(cls, s[j..e])
  {
    forall j, e | 0 <= j < n && j <= e <= |s| ensures !Shape(cls, s[j..e]) {
      assert MatcherOf(cls)(s, j).None?;
      match cls
      case IntClass =>
      case FloatClass =>
      case DurationClass =>
      case StrClass =>
    }
  }

  // ---------------------------------------------------------------------------
  // duration

  predicate NoColon(t: string) {
    forall i :: 0 <= i < |t| ==> t[i] != ':'
  }

  /** `":".join(parts)` */
  function Join(parts: seq<string>): string
    requires |parts| >= 1
  {
    if |parts| == 1 then parts[0] else parts[0] + ":" + Join(parts[1..])
  }

  /** `string.split(":")`: the parts have no `:`, and joined with `:` they
      give the text back */
  function Split(s: string): (r: seq<string>)
    ensures |r| >= 1
    ensures forall i :: 0 <= i < |r| ==> NoColon(r[i])
    ensures Join(r) == s
  {
    if |s| == 0 then [""]
    else if s[0] == ':' then
      var rest := Split(s[1..]);
      assert [""] + rest == [""] + rest;
      assert s == "" + ":" + s[1..];
      [""] + rest
    else
      var rest := Split(s[1..]);
      var head := [s[0]] + rest[0];
      assert NoColon(head) by {
        assert forall i :: 1 <= i < |head| ==> head[i] == rest[0][i - 1];
      }
      var r := [head] + rest[1..];
      assert r[1..] == rest[1..];
      assert forall i :: 1 <= i < |r| ==> r[i] == rest[i];
      assert Join(r) == s by {
        if |rest| == 1 {
          assert s == [s[0]] + s[1..];
        } else {
          assert rest == [rest[0]] + rest[1..];
          assert Join(rest) == rest[0] + ":" + Join(rest[1..]);
          assert s == [s[0]] + s[1..];
        }
      }
      r
  }

  function Pow60(n: nat): nat {
    if n == 0 then 1 else 60 * Pow60(n - 1)
  }

  /** Sum of `int(part) * 60**index` over `parts`, indices starting at
      `first`; `None` when some part is not an integer */
  function WeightedSum(parts: seq<string>, first: nat): Option<int> {
    if |parts| == 0 then Some(0)
    else match Text.ParseInt(parts[0])
      case None => None
      case Some(v) =>
        match WeightedSum(parts[1..], first + 1)
        case None => None
        case Some(rest) => Some(v * Pow60(first) + rest)
  }

  function Reverse<T>(xs: seq<T>): (r: seq<T>)
    ensures |r| == |xs|
    ensures forall i :: 0 <= i < |xs| ==> r[i] == xs[|xs| - 1 - i]
  {
    if |xs| == 0 then [] else Reverse(xs[1..]) + [xs[0]]
  }

  /** `timedelta` holds at most 999999999 days in either direction; a
      constructor call outside that range raises `OverflowError` */
  const MaxDays: int := 999999999
  const MaxSeconds: int := MaxDays * 86400 + 86399
  const MinSeconds: int := -MaxDays * 86400

  /** The whole numbers of seconds `timedelta(seconds=n)` accepts */
  predicate InTimedelta(n: int) {
    MinSeconds <= n <= MaxSeconds
  }

  /** `duration(string)` in seconds: the `:`-separated parts read from the
      right as base-60 places. `None` stands for the `ValueError` of `int`
      on a part and for the `OverflowError` of `timedelta` on the sum. The
      result is the positional base-60 reading of the parts from the left,
      whenever that reading exists and `timedelta` holds it. */
  function Duration(s: string): (r: Option<int>)
    ensures r.Some? ==> r == Horner(Split(s)) && InTimedelta(r.value)
    ensures r.None? <==> Horner(Split(s)).None? || !InTimedelta(Horner(Split(s)).value)
  {
    WeightedSumIsHorner(Split(s));
    match WeightedSum(Reverse(Split(s)), 0)
    case None => None
    case Some(n) => if InTimedelta(n) then Some(n) else None
  }

  // ---------------------------------------------------------------------------
  // filter

  /** The most minutes a `duration` text can hold: 999999999 days, 23 hours
      and 59 minutes */
  const MaxMinutes: int := MaxDays * 1440 + 1439

  /** Whether the class can hold a text its pattern matches: a duration
      text fits when its minutes are at most `MaxMinutes`; every other
      pattern text fits */
  predicate Fits(cls: DataClass, t: string)
    requires Shape(cls, t)
  {
    cls == DurationClass ==> Text.DigitsValue(t[..|t| - 3]) <= MaxMinutes
  }

  /** `data_class(text)`: a value of the class, which a text the class's
      pattern matches has exactly when the class can hold it */
  function Convert(text: string, cls: DataClass): (r: Option<Operand>)
    ensures r.Some? ==> ClassOf(r.value) == cls
    ensures Shape(cls, text) ==> (r.Some? <==> Fits(cls, text))
  {
    match cls
    case IntClass =>
      IntShapeParses(text);
      (match Text.ParseInt(text) case None => None case Some(v) => Some(IntVal(v)))
    case FloatClass =>
      FloatShapeParses(text);
      (match Text.ParseFloat(text) case None => None case Some(v) => Some(FloatVal(v)))
    case DurationClass =>
      DurationShapeConverts(text);
      (match Duration(text) case None => None case Some(v) => Some(DurationVal(v)))
    case StrClass => Some(StrVal(text))
  }

  /** `DataFilter.filter(string, data_class)`: everything is accepted when
      the text is missing or one of the two searches finds nothing;
      otherwise the predicate compares with the converted literal using the
      operator found. `Err(t)` stands for the exception `data_class(t)`
      raises, which only a duration literal too large for `timedelta` does. */
  function Filter(expr: Option<string>, cls: DataClass): (r: Result<Pred, string>)
    ensures r == Ok(AcceptAll) <==>
              expr.None? || SearchValue(expr.value, cls).None? || SearchOp(expr.value).None?
    ensures r.Err? <==>
              && expr.Some? && SearchValue(expr.value, cls).Some? && SearchOp(expr.value).Some?
              && !Fits(cls, SearchValue(expr.value, cls).value)
    ensures r.Err? ==> cls == DurationClass && r.error == SearchValue(expr.value, cls).value
    ensures r.Ok? && r.value.Bound? ==>
              && r.value.compare == FilterExp(SearchOp(expr.value).value)
              && Convert(SearchValue(expr.value, cls).value, cls) == Some(r.value.value)
              && ClassOf(r.value.value) == cls
  {
    match expr
    case None => Ok(AcceptAll)
    case Some(s) =>
      match (SearchValue(s, cls), SearchOp(s))
      case (Some(text), Some(op)) =>
        (match Convert(text, cls)
         case Some(v) => Ok(Bound(FilterExp(op), v))
         case None => Err(text))
      case _ => Ok(AcceptAll)
  }

  // ---------------------------------------------------------------------------
  // Splitting and the base-60 sum

  /** A part without `:` splits to itself */
  lemma {:induction false} SplitNoColon(s: string)
    requires forall i :: 0 <= i < |s| ==> s[i] != ':'
    ensures Split(s) == [s]
  {
    if |s| > 0 {
      SplitNoColon(s[1..]);
      assert [s[0]] + s[1..] == s;
    }
  }

  /** Splitting at the first `:` */
  lemma {:induction false} SplitAtFirstColon(a: string, b: string)
    requires forall i :: 0 <= i < |a| ==> a[i] != ':'
    ensures Split(a + ":" + b) == [a] + Split(b)
  {
    var s := a + ":" + b;
    if |a| == 0 {
      assert s[1..] == b;
    } else {
      assert s[1..] == a[1..] + ":" + b;
      SplitAtFirstColon(a[1..], b);
      assert [a[0]] + a[1..] == a;
    }
  }

  /** Starting the place values one place later multiplies the sum by 60 */
  lemma {:induction false} WeightedSumShift(parts: seq<string>, first: nat)
    ensures WeightedSum(parts, first + 1).Some? == WeightedSum(parts, first).Some?
    ensures WeightedSum(parts, first).Some? ==>
              WeightedSum(parts, first + 1).value == 60 * WeightedSum(parts, first).value
    decreases |parts|
  {
    if |parts| > 0 && WeightedSum(parts, first).Some? {
      WeightedSumShift(parts[1..], first + 1);
      var v := Text.ParseInt(parts[0]).value;
      assert v * Pow60(first + 1) == 60 * (v * Pow60(first)) by {
        assert Pow60(first + 1) == 60 * Pow60(first);
      }
    } else if |parts| > 0 {
      WeightedSumShift(parts[1..], first + 1);
    }
  }

  /** Positional reading from the left: each further part is one base-60
      place less significant */
  function Horner(parts: seq<string>): Option<int> {
    if |parts| == 0 then Some(0)
    else match (Horner(parts[..|parts| - 1]), Text.ParseInt(parts[|parts| - 1]))
      case (Some(high), Some(low)) => Some(60 * high + low)
      case _ => None
  }

  /** The right-to-left sum of `duration` equals the left-to-right positional
      reading of the parts */
  lemma {:induction false} WeightedSumIsHorner(parts: seq<string>)
    ensures WeightedSum(Reverse(parts), 0) == Horner(parts)
  {
    if |parts| > 0 {
      var n := |parts|;
      var init := parts[..n - 1];
      var rev := Reverse(parts);
      assert rev[0] == parts[n - 1];
      assert rev[1..] == Reverse(init);
      WeightedSumIsHorner(init);
      WeightedSumShift(Reverse(init), 0);
    }
  }

  /** `duration` of text without `:` is `int` of the text, failing when
      `int` fails or `timedelta` cannot hold the number */
  lemma DurationNoColon(s: string)
    requires forall i :: 0 <= i < |s| ==> s[i] != ':'
    ensures Duration(s).Some? <==> Text.ParseInt(s).Some? && InTimedelta(Text.ParseInt(s).value)
    ensures Duration(s).Some? ==> Duration(s) == Text.ParseInt(s)
  {
    SplitNoColon(s);
    WeightedSumIsHorner([s]);
    assert [s][..0] == [];
  }

  lemma DigitsHaveNoColon(s: string)
    requires Text.AllDigits(s)
    ensures forall i :: 0 <= i < |s| ==> s[i] != ':'
  {
    forall i | 0 <= i < |s| ensures s[i] != ':' { assert Text.IsDigit(s[i]); }
  }

  /** Positional reading of two parts */
  lemma HornerOfTwo(m: string, ss: string, a: int, b: int)
    requires Text.ParseInt(m) == Some(a) && Text.ParseInt(ss) == Some(b)
    ensures Horner([m, ss]) == Some(60 * a + b)
  {
    assert [m, ss][..1] == [m];
    assert [m][..0] == [];
    assert Horner([m]) == Some(a);
  }

  /** `duration` of two `:`-free parts that `int` accepts is `60 * a + b`
      seconds when `timedelta` holds that, and fails otherwise */
  lemma DurationOfTwoParts(m: string, ss: string, a: int, b: int)
    requires forall i :: 0 <= i < |m| ==> m[i] != ':'
    requires forall i :: 0 <= i < |ss| ==> ss[i] != ':'
    requires Text.ParseInt(m) == Some(a) && Text.ParseInt(ss) == Some(b)
    ensures InTimedelta(60 * a + b) ==> Duration(m + ":" + ss) == Some(60 * a + b)
    ensures !InTimedelta(60 * a + b) ==> Duration(m + ":" + ss).None?
  {
    var s := m + ":" + ss;
    assert Split(s) == [m, ss] by {
      SplitAtFirstColon(m, ss);
      SplitNoColon(ss);
    }
    HornerOfTwo(m, ss, a, b);
  }

  /** `duration("m:ss")` is `m * 60 + ss` seconds, `m` and `ss` being
      the values of the two digit strings, up to `MaxSeconds`; above it
      `timedelta` raises */
  lemma DurationMinutesSeconds(m: string, ss: string, minutes: nat, seconds: nat)
    requires |m| > 0 && Text.AllDigits(m) && |ss| > 0 && Text.AllDigits(ss)
    requires minutes == Text.DigitsValue(m) && seconds == Text.DigitsValue(ss)
    ensures 60 * minutes + seconds <= MaxSeconds ==> Duration(m + ":" + ss) == Some(60 * minutes + seconds)
    ensures 60 * minutes + seconds > MaxSeconds ==> Duration(m + ":" + ss).None?
  {
    DigitsHaveNoColon(m);
    DigitsHaveNoColon(ss);
    Text.ParseIntOfDigits(m);
    Text.ParseIntOfDigits(ss);
    DurationOfTwoParts(m, ss, minutes, seconds);
  }

  // ---------------------------------------------------------------------------
  // What the searches find

  /** `int` accepts every text the int pattern matches */
  lemma IntShapeParses(t: string)
    ensures IntShape(t) ==> Text.ParseInt(t).Some?
  {
    if IntShape(t) && t[0] != '-' {
      assert Text.IsDigit(t[0]);
    }
  }

  /** `float` accepts every text the float pattern matches */
  lemma FloatShapeParses(t: string)
    ensures FloatShape(t) ==> Text.ParseFloat(t).Some?
  {
    if FloatShape(t) {
      match Text.DotIndex(t)
      case None => assert Text.IsDigit(t[0]);
      case Some(k) =>
        if k > 0 {
          assert Text.IsDigit(t[..k][0]);
        }
    }
  }

  /** `duration` accepts a text the duration pattern matches exactly when
      its minutes are at most `MaxMinutes`: the seconds field is below 60,
      so that is when the total fits in `timedelta` */
  lemma DurationShapeConverts(t: string)
    ensures DurationShape(t) ==> (Duration(t).Some? <==> Text.DigitsValue(t[..|t| - 3]) <= MaxMinutes)
  {
    if DurationShape(t) {
      var n := |t| - 3;
      var m, ss := t[..n], t[n + 1..];
      assert t == m + ":" + ss;
      assert Text.AllDigits(ss) by {
        assert ss[0] == t[n + 1] && ss[1] == t[n + 2];
      }
      var minutes, seconds := Text.DigitsValue(m), Text.DigitsValue(ss);
      assert seconds < 60 by {
        assert ss[..1][0] == ss[0] && ss[..1][..0] == [];
        assert Text.DigitsValue(ss[..1]) == Text.DigitValue(ss[0]);
        assert '0' <= ss[0] <= '5';
      }
      DurationMinutesSeconds(m, ss, minutes, seconds);
    }
  }

  // ---------------------------------------------------------------------------
  // Properties of filter

  /** The comparison an operator reads as, field value on the left */
  predicate Reads(x: Operand, op: Op, v: Operand)
    requires ClassOf(x) == ClassOf(v)
  {
    match op
    case Lt => Less(x, v)
    case Le => Less(x, v) || x == v
    case Gt => Less(v, x)
    case Ge => Less(v, x) || x == v
    case Eq => x == v
  }

  /** The bound method of the literal reads the operator in its natural
      direction: `"<"` maps to `v.__gt__`, so the predicate holds of `x`
      exactly when `x < v` */
  lemma OperatorSemantics(op: Op, v: Operand, x: Operand)
    requires ClassOf(x) == ClassOf(v)
    ensures Apply(Bound(FilterExp(op), v), x) <==> Reads(x, op, v)
  {
  }

  predicate IsOpChar(c: char) {
    c == '<' || c == '>' || c == '='
  }

  /** The operator spelled at position `k`, taking a following `=` after a
      `<` or `>` */
  function OpAt(s: string, k: nat): Op
    requires k < |s| && IsOpChar(s[k])
  {
    var eq := k + 1 < |s| && s[k + 1] == '=';
    if s[k] == '<' then (if eq then Le else Lt)
    else if s[k] == '>' then (if eq then Ge else Gt)
    else Eq
  }

  /** The operator is the one at the leftmost `<`, `>` or `=` */
  lemma SearchOpLeftmost(s: string, k: nat)
    requires k < |s| && IsOpChar(s[k])
    requires forall j :: 0 <= j < k ==> !IsOpChar(s[j])
    ensures SearchOp(s) == Some(OpAt(s, k))
  {
    assert forall j :: 0 <= j < k ==> OpMatchAt(s, j).None?;
    var e := OpMatchAt(s, k).value;
    LeftmostAt(s, OpMatchAt, k);
    if e == k + 2 {
      assert s[k..e] == [s[k], s[k + 1]];
    } else {
      assert s[k..e] == [s[k]];
    }
  }

  /** Without `<`, `>` and `=` there is no operator */
  lemma SearchOpNone(s: string)
    requires forall j :: 0 <= j < |s| ==> !IsOpChar(s[j])
    ensures SearchOp(s).None?
  {
    assert forall j :: 0 <= j <= |s| ==> OpMatchAt(s, j).None?;
  }

  /** The operator texts the dialog and the API use */
  predicate OpToken(o: string) {
    o == "<" || o == "<=" || o == ">" || o == ">=" || o == "="
  }

  function OpOfToken(o: string): Op
    requires OpToken(o)
  {
    if o == "<" then Lt else if o == "<=" then Le
    else if o == ">" then Gt else if o == ">=" then Ge else Eq
  }

  lemma SearchOpOfToken(o: string, rest: string)
    requires OpToken(o)
    requires |rest| == 0 || rest[0] != '='
    ensures SearchOp(o + rest) == Some(OpOfToken(o))
  {
    SearchOpLeftmost(o + rest, 0);
  }

  lemma SearchOpAfterDigits(n: string, o: string)
    requires Text.AllDigits(n) && OpToken(o)
    ensures SearchOp(n + o) == Some(OpOfToken(o))
  {
    var s := n + o;
    forall j | 0 <= j < |n| ensures !IsOpChar(s[j]) { assert Text.IsDigit(n[j]); }
    SearchOpLeftmost(s, |n|);
  }

  /** Inside an operator token neither number pattern can start */
  lemma NoNumberInToken(o: string, rest: string)
    requires OpToken(o)
    ensures forall j :: 0 <= j < |o| ==> IntMatchAt(o + rest, j).None?
    ensures forall j :: 0 <= j < |o| ==> FloatMatchAt(o + rest, j).None?
  {
    var s := o + rest;
    forall j | 0 <= j < |o| ensures IntMatchAt(s, j).None? && FloatMatchAt(s, j).None? {
      assert !Text.IsDigit(s[j]) && s[j] != '-' && s[j] != '.';
      assert Text.RunEnd(s, j) == j;
    }
  }

  /** The second part of a concatenation, sliced back out */
  lemma SliceOfConcat(a: string, b: string)
    ensures (a + b)[|a|..|a + b|] == b && (a + b)[0..|a|] == a
  {
  }

  /** A match at `k` with none before it is what `re.search` returns */
  lemma SearchValueAt(s: string, cls: DataClass, k: nat, e: nat)
    requires k <= e <= |s| && MatcherOf(cls)(s, k) == Some(e)
    requires forall j :: 0 <= j < k ==> MatcherOf(cls)(s, j).None?
    ensures SearchValue(s, cls) == Some(s[k..e])
  {
    LeftmostAt(s, MatcherOf(cls), k);
  }

  lemma SearchIntAfterToken(o: string, n: string)
    requires OpToken(o) && |n| > 0 && Text.AllDigits(n)
    ensures SearchValue(o + n, IntClass) == Some(n)
  {
    var s := o + n;
    assert MatcherOf(IntClass) == IntMatchAt;
    assert forall j :: 0 <= j < |o| ==> IntMatchAt(s, j).None? by {
      NoNumberInToken(o, n);
    }
    assert IntMatchAt(s, |o|) == Some(|s|) by {
      assert Text.IsDigit(s[|o|]);
      Text.RunEndOver(s, |o|, |n|);
    }
    SearchValueAt(s, IntClass, |o|, |s|);
    SliceOfConcat(o, n);
  }

  lemma SearchIntBeforeToken(n: string, o: string)
    requires OpToken(o) && |n| > 0 && Text.AllDigits(n)
    ensures SearchValue(n + o, IntClass) == Some(n)
  {
    var s := n + o;
    assert MatcherOf(IntClass) == IntMatchAt;
    assert IntMatchAt(s, 0) == Some(|n|) by {
      assert Text.IsDigit(s[0]) && !Text.IsDigit(s[|n|]);
      Text.RunEndOver(s, 0, |n|);
    }
    SearchValueAt(s, IntClass, 0, |n|);
    SliceOfConcat(n, o);
  }

  /** An operator followed by a digit string filters integers by that
      operator and number */
  lemma FilterOpThenInt(o: string, n: string)
    requires OpToken(o) && |n| > 0 && Text.AllDigits(n)
    ensures Filter(Some(o + n), IntClass) == Ok(Bound(FilterExp(OpOfToken(o)), IntVal(Text.DigitsValue(n))))
  {
    SearchIntAfterToken(o, n);
    SearchOpOfToken(o, n);
    Text.ParseIntOfDigits(n);
  }

  /** Operator and literal are searched independently, so their order in the
      text does not matter */
  lemma FilterOrderIndependent(o: string, n: string)
    requires OpToken(o) && |n| > 0 && Text.AllDigits(n)
    ensures Filter(Some(n + o), IntClass) == Filter(Some(o + n), IntClass)
  {
    FilterOpThenInt(o, n);
    SearchIntBeforeToken(n, o);
    SearchOpAfterDigits(n, o);
    Text.ParseIntOfDigits(n);
  }

  /** A `-` directly before the digits belongs to the integer literal:
      `"<-3"` compares with -3 */
  lemma NegativeIntLiteral(o: string, n: string)
    requires OpToken(o) && |n| > 0 && Text.AllDigits(n)
    ensures SearchValue(o + ("-" + n), IntClass) == Some("-" + n)
  {
    var t := "-" + n;
    var s := o + t;
    assert MatcherOf(IntClass) == IntMatchAt;
    assert forall j :: 0 <= j < |o| ==> IntMatchAt(s, j).None? by {
      NoNumberInToken(o, t);
    }
    assert IntMatchAt(s, |o|) == Some(|s|) by {
      assert s[|o|] == '-' && Text.IsDigit(s[|o| + 1]);
      Text.RunEndOver(s, |o| + 1, |n|);
    }
    SearchValueAt(s, IntClass, |o|, |s|);
    SliceOfConcat(o, t);
  }

  /** ... and converts to the negated value of the digits */
  lemma NegativeIntValue(n: string)
    requires |n| > 0 && Text.AllDigits(n)
    ensures Convert("-" + n, IntClass) == Some(IntVal(-(Text.DigitsValue(n) as int)))
  {
    Text.ParseIntOfNegative(n);
  }

  /** The float pattern over digits, a point and digits up to the end */
  lemma FloatMatchPointed(s: string, i: nat, k: nat)
    requires i + k + 1 < |s| && s[i + k] == '.'
    requires forall j :: i <= j < i + k ==> Text.IsDigit(s[j])
    requires forall j :: i + k + 1 <= j < |s| ==> Text.IsDigit(s[j])
    ensures FloatMatchAt(s, i) == Some(|s|)
  {
    Text.RunEndOver(s, i, k);
    Text.RunEndOver(s, i + k + 1, |s| - (i + k + 1));
  }

  /** The float pattern over digits up to the end */
  lemma FloatMatchDigits(s: string, i: nat)
    requires i < |s|
    requires forall j :: i <= j < |s| ==> Text.IsDigit(s[j])
    ensures FloatMatchAt(s, i) == Some(|s|)
  {
    Text.RunEndOver(s, i, |s| - i);
  }

  /** Where the float pattern ends on an operator followed by a plain
      decimal numeral */
  lemma FloatMatchAfterToken(o: string, d: string)
    requires OpToken(o) && Text.PlainDecimal(d)
    ensures FloatMatchAt(o + d, |o|) == Some(|o| + |d|)
  {
    var s := o + d;
    match Text.DotIndex(d)
    case Some(k) =>
      assert forall j :: |o| <= j < |o| + k ==> Text.IsDigit(s[j]) by {
        forall j | |o| <= j < |o| + k ensures Text.IsDigit(s[j]) {
          assert s[j] == d[..k][j - |o|];
        }
      }
      assert forall j :: |o| + k + 1 <= j < |s| ==> Text.IsDigit(s[j]) by {
        forall j | |o| + k + 1 <= j < |s| ensures Text.IsDigit(s[j]) {
          assert s[j] == d[k + 1..][j - |o| - k - 1];
        }
      }
      assert s[|o| + k] == '.';
      FloatMatchPointed(s, |o|, k);
    case None =>
      assert forall j :: |o| <= j < |s| ==> Text.IsDigit(s[j]) by {
        forall j | |o| <= j < |s| ensures Text.IsDigit(s[j]) {
          assert s[j] == d[j - |o|];
        }
      }
      FloatMatchDigits(s, |o|);
  }

  lemma SearchFloatAfterToken(o: string, d: string)
    requires OpToken(o) && Text.PlainDecimal(d)
    ensures SearchValue(o + d, FloatClass) == Some(d)
  {
    var s := o + d;
    assert MatcherOf(FloatClass) == FloatMatchAt;
    assert forall j :: 0 <= j < |o| ==> FloatMatchAt(s, j).None? by {
      NoNumberInToken(o, d);
    }
    FloatMatchAfterToken(o, d);
    SearchValueAt(s, FloatClass, |o|, |s|);
    SliceOfConcat(o, d);
  }

  /** A duration text that runs to the end is matched whole */
  lemma DurationMatchWhole(s: string, i: nat)
    requires i <= |s| && DurationShape(s[i..])
    ensures DurationMatchAt(s, i) == Some(|s|)
  {
    assert s[i..|s|] == s[i..];
    DurationShapeRun(s, i, |s|);
  }

  /** The duration pattern matches nowhere inside an operator token */
  lemma NoDurationInToken(o: string, rest: string)
    requires OpToken(o)
    ensures forall j :: 0 <= j < |o| ==> DurationMatchAt(o + rest, j).None?
  {
    var s := o + rest;
    forall j | 0 <= j < |o| ensures DurationMatchAt(s, j).None? {
      assert !Text.IsDigit(s[j]);
      assert Text.RunEnd(s, j) == j;
    }
  }

  /** After an operator token, the duration literal found is the whole
      duration text */
  lemma SearchDurationAfterToken(o: string, t: string)
    requires OpToken(o) && DurationShape(t)
    ensures SearchValue(o + t, DurationClass) == Some(t)
  {
    var s := o + t;
    assert MatcherOf(DurationClass) == DurationMatchAt;
    SliceOfConcat(o, t);
    assert s[|o|..] == t;
    DurationMatchWhole(s, |o|);
    NoDurationInToken(o, t);
    SearchValueAt(s, DurationClass, |o|, |s|);
  }

  /** `filter(op + t, duration)` raises the `OverflowError` of `timedelta`
      exactly when the literal holds more than `MaxMinutes` minutes, and
      otherwise compares by `op` with the literal's seconds */
  lemma FilterDurationOverflow(o: string, t: string)
    requires OpToken(o) && DurationShape(t)
    ensures Filter(Some(o + t), DurationClass).Err? <==> Text.DigitsValue(t[..|t| - 3]) > MaxMinutes
    ensures Filter(Some(o + t), DurationClass).Err? ==> Filter(Some(o + t), DurationClass).error == t
    ensures Filter(Some(o + t), DurationClass).Ok? ==>
              && Duration(t).Some?
              && Filter(Some(o + t), DurationClass) == Ok(Bound(FilterExp(OpOfToken(o)), DurationVal(Duration(t).value)))
  {
    SearchDurationAfterToken(o, t);
    SearchOpOfToken(o, t);
    DurationShapeConverts(t);
  }

  /** An operator followed by a plain decimal numeral filters floats by that
      operator and the numeral's value */
  lemma FilterOpThenDecimal(o: string, d: string)
    requires OpToken(o) && Text.PlainDecimal(d)
    ensures Filter(Some(o + d), FloatClass)
              == Ok(Bound(FilterExp(OpOfToken(o)), FloatVal(Text.PlainDecimalValue(d))))
  {
    SearchFloatAfterToken(o, d);
    assert Text.IsDigit(d[0]);
    SearchOpOfToken(o, d);
    Text.ParseFloatOfPlainDecimal(d);
  }
}
