/** The small pure helpers of `torchslime/utils/__init__.py`: clipping,
    dictionary merging, the read counter behind default handler ids, the
    endless generators as index functions, `list_take`, the naming
    predicates, `xor__` and the two ordering sentinels. */
module Utils {
  import opened Base
  import opened PyDict

  // ---------------------------------------------------------------------
  // bound_clip
  // ---------------------------------------------------------------------

  /** `bound_clip(value, _min, _max)`: `None` (NOTHING) for an empty range,
      otherwise `value` clipped into `[lo, hi]`. */
  function BoundClip(value: int, lo: int, hi: int): (r: Option<int>)
    ensures r.None? <==> lo > hi
    ensures r.Some? ==> lo <= r.value <= hi
    ensures r.Some? && lo <= value <= hi ==> r.value == value
    ensures r.Some? && r.value != value ==> (value < lo && r.value == lo) || (value > hi && r.value == hi)
  {
    if lo > hi then None
    else if value < lo then Some(lo)
    else if value > hi then Some(hi)
    else Some(value)
  }

  /** Clipping an already clipped value changes nothing. */
  lemma BoundClipIdempotent(value: int, lo: int, hi: int)
    requires lo <= hi
    ensures BoundClip(BoundClip(value, lo, hi).value, lo, hi) == BoundClip(value, lo, hi)
  {
  }

  // ---------------------------------------------------------------------
  // dict_merge
  // ---------------------------------------------------------------------

  /** `{ **dict1, **dict2 }`: start from `dict1` and assign every entry of
      `dict2` in its order. */
  function DictMerge<K(==), V>(d1: Dict<K, V>, d2: Dict<K, V>): Dict<K, V>
    decreases |d2|
  {
    if d2 == [] then d1 else DictMerge(Put(d1, d2[0].0, d2[0].1), d2[1..])
  }

  /** The merge keeps the keys distinct and holds exactly the keys of both inputs. */
  lemma {:induction false} DictMergeKeys<K, V>(d1: Dict<K, V>, d2: Dict<K, V>)
    requires Valid(d1)
    ensures Valid(DictMerge(d1, d2))
    ensures forall k :: HasKey(DictMerge(d1, d2), k) <==> HasKey(d1, k) || HasKey(d2, k)
    decreases |d2|
  {
    if d2 != [] {
      var (k, v) := d2[0];
      PutValid(d1, k, v);
      PutKeys(d1, k, v);
      DictMergeKeys(Put(d1, k, v), d2[1..]);
      assert Keys(d2) == [k] + Keys(d2[1..]);
    }
  }

  /** On a clash the value of `dict2` wins; other keys read as in `dict1`. */
  lemma {:induction false} DictMergeValues<K, V>(d1: Dict<K, V>, d2: Dict<K, V>)
    requires Valid(d2)
    ensures forall k :: HasKey(d2, k) ==> Get(DictMerge(d1, d2), k) == Get(d2, k)
    ensures forall k :: !HasKey(d2, k) ==> Get(DictMerge(d1, d2), k) == Get(d1, k)
    decreases |d2|
  {
    if d2 != [] {
      var (k, v) := d2[0];
      var p := Put(d1, k, v);
      PutGet(d1, k, v);
      assert Keys(d2) == [k] + Keys(d2[1..]);
      assert !HasKey(d2[1..], k);
      DictMergeValues(p, d2[1..]);
      DictMergeWrites(p, d2[1..], k);
    }
  }

  /** A key written by `d[k] = v` keeps its value unless `d2` writes it again. */
  lemma {:induction false} DictMergeWrites<K, V>(d1: Dict<K, V>, d2: Dict<K, V>, k: K)
    requires !HasKey(d2, k)
    ensures Get(DictMerge(d1, d2), k) == Get(d1, k)
    decreases |d2|
  {
    if d2 != [] {
      PutGet(d1, d2[0].0, d2[0].1);
      assert Keys(d2) == [d2[0].0] + Keys(d2[1..]);
      DictMergeWrites(Put(d1, d2[0].0, d2[0].1), d2[1..], k);
    }
  }

  /** The keys of `dict1` come first, in their original order. */
  lemma {:induction false} DictMergeOrder<K, V>(d1: Dict<K, V>, d2: Dict<K, V>)
    ensures |d1| <= |DictMerge(d1, d2)| && Keys(DictMerge(d1, d2))[..|d1|] == Keys(d1)
    decreases |d2|
  {
    if d2 != [] {
      var p := Put(d1, d2[0].0, d2[0].1);
      DictMergeOrder(p, d2[1..]);
      var r := DictMerge(p, d2[1..]);
      assert Keys(p)[..|d1|] == Keys(d1);
      assert Keys(r)[..|d1|] == Keys(r)[..|p|][..|d1|];
    }
  }

  // ---------------------------------------------------------------------
  // Count
  // ---------------------------------------------------------------------

  /** The `Count` descriptor: every read yields the current value and bumps it. */
  datatype Count = Count(value: nat)

  /** One attribute read (`__get__`): the pre-increment value and the new state. */
  function Read(c: Count): (nat, Count) {
    (c.value, Count(c.value + 1))
  }

  /** Assignment through the descriptor (`__set__`) is ignored. */
  function Assign(c: Count, ignored: nat): Count {
    c
  }

  /** `n` successive reads. */
  function ReadMany(c: Count, n: nat): (r: (seq<nat>, Count))
    ensures |r.0| == n
    ensures forall i :: 0 <= i < n ==> r.0[i] == c.value + i
    ensures r.1.value == c.value + n
    decreases n
  {
    if n == 0 then ([], c)
    else
      var (v, c1) := Read(c);
      var (rest, c2) := ReadMany(c1, n - 1);
      ([v] + rest, c2)
  }

  /** Reads never repeat a value, whatever assignments happen in between. */
  lemma ReadsNeverRepeat(c: Count, n: nat, x: nat)
    ensures Distinct(ReadMany(c, n).0)
    ensures ReadMany(Assign(c, x), n) == ReadMany(c, n)
  {
  }

  // ---------------------------------------------------------------------
  // Default handler ids ('handler_{}'.format(n))
  // ---------------------------------------------------------------------

  function DigitChar(d: nat): (c: char)
    requires d < 10
    ensures '0' <= c <= '9'
  {
    ('0' as int + d) as char
  }

  function DigitValue(c: char): nat {
    if '0' <= c <= '9' then c as int - '0' as int else 0
  }

  /** `str(n)` for a natural number: decimal digits, most significant first. */
  function NatToString(n: nat): (s: string)
    ensures |s| >= 1
    ensures forall i :: 0 <= i < |s| ==> '0' <= s[i] <= '9'
    decreases n
  {
    if n < 10 then [DigitChar(n)] else NatToString(n / 10) + [DigitChar(n % 10)]
  }

  /** `int(s)` for a string of decimal digits. */
  function ParseDecimal(s: string): nat
    decreases |s|
  {
    if s == [] then 0 else ParseDecimal(s[..|s| - 1]) * 10 + DigitValue(s[|s| - 1])
  }

  /** Decimal formatting is undone by parsing. */
  lemma {:induction false} ParseFormatted(n: nat)
    ensures ParseDecimal(NatToString(n)) == n
    decreases n
  {
    if n >= 10 {
      var s := NatToString(n);
      assert s[..|s| - 1] == NatToString(n / 10);
      ParseFormatted(n / 10);
    }
  }

  const HandlerIdPrefix: string := "handler_"

  /** The id given to a handler created without one (handlers/__init__.py:46). */
  function DefaultHandlerId(n: nat): string {
    HandlerIdPrefix + NatToString(n)
  }

  /** Distinct counter values give distinct default ids, so default ids never
      collide with each other. */
  lemma DefaultHandlerIdInjective(a: nat, b: nat)
    ensures DefaultHandlerId(a) == DefaultHandlerId(b) <==> a == b
  {
    if DefaultHandlerId(a) == DefaultHandlerId(b) {
      assert NatToString(a) == DefaultHandlerId(a)[|HandlerIdPrefix|..];
      assert NatToString(b) == DefaultHandlerId(b)[|HandlerIdPrefix|..];
      ParseFormatted(a);
      ParseFormatted(b);
    }
  }

  // ---------------------------------------------------------------------
  // inf_range / inf_iter / inf_enumerate as index functions
  // ---------------------------------------------------------------------

  /** The value `inf_range` yields after `n` further resumptions when its
      local `value` is currently `value`: each resumption adds `step`. */
  function RangeNth(value: int, step: int, n: nat): (r: int)
    ensures r == value + n * step
    decreases n
  {
    if n == 0 then value else RangeNth(value + step, step, n - 1)
  }

  /** The item `inf_iter` yields after `n` further resumptions when its inner
      `for` loop stands at position `pos`; the loop restarts at the end. */
  function IterNth<T>(s: seq<T>, pos: nat, n: nat): (r: T)
    requires pos < |s|
    ensures r == s[(pos + n) % |s|]
    decreases n
  {
    if n == 0 then s[pos]
    else
      var next := if pos + 1 < |s| then pos + 1 else 0;
      assert (next + (n - 1)) % |s| == (pos + n) % |s| by {
        if pos + 1 == |s| {
          ModPeriod(n - 1, |s|);
          assert pos + n == (n - 1) + |s|;
        }
      }
      IterNth(s, next, n - 1)
  }

  lemma {:induction false} MulAtLeast(k: int, m: int)
    requires k >= 1 && m > 0
    ensures k * m >= m
    decreases k
  {
    if k > 1 {
      MulAtLeast(k - 1, m);
      assert k * m == (k - 1) * m + m;
    }
  }

  /** Adding one period leaves the remainder unchanged. */
  lemma ModPeriod(x: nat, m: nat)
    requires m > 0
    ensures (x + m) % m == x % m
  {
    var q, r := x / m, x % m;
    var q2 := (x + m) / m;
    assert x + m == q * m + m + r;
    assert q * m + m == (q + 1) * m;
    if q2 > q + 1 {
      MulAtLeast(q2 - q - 1, m);
      assert false;
    } else if q2 < q + 1 {
      MulAtLeast(q + 1 - q2, m);
      assert false;
    }
  }

  /** The `n`-th item of `inf_iter(s)`; an empty iterable never yields. */
  function InfIterNth<T>(s: seq<T>, n: nat): (r: Option<T>)
    ensures |s| == 0 <==> r.None?
    ensures |s| > 0 ==> r == Some(s[n % |s|])
  {
    if |s| == 0 then None else Some(IterNth(s, 0, n))
  }

  /** The `n`-th pair of `inf_enumerate(s, start)`. */
  function InfEnumerateNth<T>(s: seq<T>, start: int, n: nat): (r: Option<(int, T)>)
    ensures |s| == 0 <==> r.None?
    ensures |s| > 0 ==> r == Some((RangeNth(start, 1, n), s[n % |s|]))
  {
    match InfIterNth(s, n)
    case None => None
    case Some(x) => Some((RangeNth(start, 1, n), x))
  }

  // ---------------------------------------------------------------------
  // list_take
  // ---------------------------------------------------------------------

  /** The first argument: a list/tuple, or any other value (wrapped as a 1-tuple). */
  datatype ListLike<V> = Sequence(items: seq<V>) | Scalar(item: V)

  /** The second argument: `None`, an `int`, a list/tuple of ints, or anything else. */
  datatype TakeIndex = NoIndex | At(i: int) | AtEach(ix: seq<int>) | Unsupported

  /** What `list_take` returns: NOTHING, one item, a tuple of items/NOTHINGs,
      Python's implicit `None`, or a raised error. */
  datatype Taken<V> = TakeNothing | Item(v: V) | Items(vs: seq<Option<V>>) | TakeNone | TakeRaised(e: PyError)

  function AsItems<V>(l: ListLike<V>): seq<V> {
    match l
    case Sequence(items) => items
    case Scalar(x) => [x]
  }

  /** Python `items[i]`, including negative indices. */
  function PyIndex<V>(items: seq<V>, i: int): (r: Result<V>)
    ensures r.Raised? <==> !(-|items| <= i < |items|)
    ensures 0 <= i < |items| ==> r == Done(items[i])
    ensures -|items| <= i < 0 ==> r == Done(items[|items| + i])
  {
    match NormIndex(i, |items|)
    case Some(p) => Done(items[p])
    case None => Raised(IndexError)
  }

  /** One element of `list_take`, as written: `items[i] if i < len else NOTHING`. */
  function TakeOne<V>(items: seq<V>, i: int): Result<Option<V>> {
    if i < |items| then (
      match PyIndex(items, i)
      case Done(v) => Done(Some(v))
      case Raised(e) => Raised(e))
    else Done(None)
  }

  function TakeEach<V>(items: seq<V>, ix: seq<int>): (r: Result<seq<Option<V>>>)
    ensures r.Done? ==> |r.value| == |ix|
    ensures r.Done? ==> forall k :: 0 <= k < |ix| ==> TakeOne(items, ix[k]) == Done(r.value[k])
    ensures r.Raised? <==> exists k :: 0 <= k < |ix| && TakeOne(items, ix[k]).Raised?
  {
    if ix == [] then Done([])
    else match TakeOne(items, ix[0])
      case Raised(e) => Raised(e)
      case Done(x) =>
        match TakeEach(items, ix[1..])
        case Raised(e) =>
          var k :| 0 <= k < |ix[1..]| && TakeOne(items, ix[1..][k]).Raised?;
          assert TakeOne(items, ix[k + 1]).Raised?;
          Raised(e)
        case Done(xs) =>
          assert forall k :: 1 <= k < |ix| ==> ix[k] == ix[1..][k - 1];
          Done([x] + xs)
  }

  /** `list_take(list_like, index)` as written. */
  function ListTake<V>(l: ListLike<V>, index: TakeIndex): (r: Taken<V>)
    ensures index.NoIndex? ==> r.TakeNothing?
    ensures index.Unsupported? ==> r.TakeNone?
    ensures index.At? && 0 <= index.i < |AsItems(l)| ==> r == Item(AsItems(l)[index.i])
    ensures index.At? && index.i >= |AsItems(l)| ==> r.TakeNothing?
    ensures index.At? && -|AsItems(l)| <= index.i < 0 ==> r == Item(AsItems(l)[|AsItems(l)| + index.i])
    ensures index.At? && index.i < -|AsItems(l)| ==> r == TakeRaised(IndexError)
    ensures index.AtEach? && r.Items? ==> |r.vs| == |index.ix|
  {
    match index
    case NoIndex => TakeNothing
    case Unsupported => TakeNone
    case At(i) => (
      match TakeOne(AsItems(l), i)
      case Raised(e) => TakeRaised(e)
      case Done(None) => TakeNothing
      case Done(Some(v)) => Item(v))
    case AtEach(ix) =>
      match TakeEach(AsItems(l), ix)
      case Raised(e) => TakeRaised(e)
      case Done(vs) => Items(vs)
  }

  /** The index `-2` into a one-element list is out of bounds, yet `list_take`
      raises instead of returning NOTHING. */
  lemma ListTakeRaisesBelowBounds()
    ensures ListTake(Sequence([7]), At(-2)) == TakeRaised(IndexError)
    ensures ListTakeBounded(Sequence([7]), At(-2)) == TakeNothing
  {
  }

  /** One element with the bounds check the code's comment describes:
      every out-of-bounds index gives NOTHING. */
  function TakeOneBounded<V>(items: seq<V>, i: int): (r: Option<V>)
    ensures r.Some? <==> -|items| <= i < |items|
    ensures r.Some? ==> PyIndex(items, i) == Done(r.value)
  {
    if -|items| <= i < |items| then Some(PyIndex(items, i).value) else None
  }

  /** `list_take` with every out-of-bounds index mapped to NOTHING; it never raises. */
  function ListTakeBounded<V>(l: ListLike<V>, index: TakeIndex): (r: Taken<V>)
    ensures !r.TakeRaised?
    ensures index.NoIndex? ==> r.TakeNothing?
    ensures index.Unsupported? ==> r.TakeNone?
    ensures index.At? ==> (r.TakeNothing? <==> !(-|AsItems(l)| <= index.i < |AsItems(l)|))
    ensures index.At? && r.Item? ==> PyIndex(AsItems(l), index.i) == Done(r.v)
    ensures index.AtEach? ==> r.Items? && |r.vs| == |index.ix|
    ensures index.AtEach? ==> forall k :: 0 <= k < |index.ix| ==> r.vs[k] == TakeOneBounded(AsItems(l), index.ix[k])
  {
    match index
    case NoIndex => TakeNothing
    case Unsupported => TakeNone
    case At(i) => (
      match TakeOneBounded(AsItems(l), i)
      case None => TakeNothing
      case Some(v) => Item(v))
    case AtEach(ix) =>
      Items(seq(|ix|, k requires 0 <= k < |ix| => TakeOneBounded(AsItems(l), ix[k])))
  }

  /** Wherever the code as written does not raise, the bounded version agrees with it. */
  lemma ListTakeBoundedAgrees<V>(l: ListLike<V>, index: TakeIndex)
    requires !ListTake(l, index).TakeRaised?
    ensures ListTakeBounded(l, index) == ListTake(l, index)
  {
    match index
    case AtEach(ix) =>
      var items := AsItems(l);
      var r := TakeEach(items, ix);
      assert r.Done?;
      assert forall k :: 0 <= k < |ix| ==> r.value[k] == TakeOneBounded(items, ix[k]) by {
        forall k | 0 <= k < |ix|
          ensures r.value[k] == TakeOneBounded(items, ix[k])
        {
          assert TakeOne(items, ix[k]) == Done(r.value[k]);
        }
      }
    case _ =>
  }

  // ---------------------------------------------------------------------
  // is_magic_naming / is_slime_naming
  // ---------------------------------------------------------------------

  predicate NoNewline(s: string) {
    forall i :: 0 <= i < |s| ==> s[i] != '\n'
  }

  /** A full match of `_{2}[^_](?:.*[^_])?_{2}`: two underscores, a
      non-underscore, optionally any newline-free run closed by a
      non-underscore, two underscores. */
  predicate MagicShape(w: string) {
    && |w| >= 5
    && w[..2] == "__" && w[|w| - 2..] == "__"
    && w[2] != '_' && w[|w| - 3] != '_'
    && NoNewline(w[3..|w| - 3 + (if |w| == 5 then 1 else 0)])
  }

  /** A full match of `[^_](?:.*[^_])?_{2}`. */
  predicate SlimeShape(w: string) {
    && |w| >= 3
    && w[0] != '_' && w[|w| - 3] != '_'
    && w[|w| - 2..] == "__"
    && NoNewline(w[1..|w| - 3 + (if |w| == 3 then 1 else 0)])
  }

  /** `re.match(p, s)` for a pattern ending in `$`: `$` also matches just before
      one final newline. */
  predicate AnchoredMatch(shape: string -> bool, s: string) {
    shape(s) || (|s| >= 1 && s[|s| - 1] == '\n' && shape(s[..|s| - 1]))
  }

  /** `is_magic_naming(s)`. */
  predicate IsMagicNaming(s: string) {
    AnchoredMatch(MagicShape, s)
  }

  /** `is_slime_naming(s)`. */
  predicate IsSlimeNaming(s: string) {
    AnchoredMatch(SlimeShape, s)
  }

  /** A dunder name `__m__` with a newline-free body is magic exactly when the
      body is non-empty and neither starts nor ends with `_`. */
  lemma MagicNamingOfDunder(m: string)
    requires NoNewline(m)
    ensures IsMagicNaming("__" + m + "__") <==> |m| >= 1 && m[0] != '_' && m[|m| - 1] != '_'
  {
    var w := "__" + m + "__";
    assert w[..2] == "__" && w[|w| - 2..] == "__";
    if |m| >= 1 {
      assert w[2] == m[0] && w[|w| - 3] == m[|m| - 1];
      if |m| >= 2 {
        assert w[3..|w| - 3] == m[1..|m| - 1];
      }
    }
    if |w| >= 1 && w[|w| - 1] == '\n' {
      assert false;
    }
  }

  /** A name `m__` with a newline-free stem is a slime name exactly when the
      stem is non-empty and neither starts nor ends with `_`. */
  lemma SlimeNamingOfStem(m: string)
    requires NoNewline(m)
    ensures IsSlimeNaming(m + "__") <==> |m| >= 1 && m[0] != '_' && m[|m| - 1] != '_'
  {
    var w := m + "__";
    assert w[|w| - 1] == '_';
    assert IsSlimeNaming(w) <==> SlimeShape(w);
    assert w[|w| - 2..] == "__";
    if |m| >= 1 {
      assert w[0] == m[0] && w[|w| - 3] == m[|m| - 1];
      var body := w[1..|w| - 3 + (if |w| == 3 then 1 else 0)];
      assert NoNewline(body) by {
        if |m| >= 2 {
          assert body == m[1..|m| - 1];
        } else {
          assert body == [];
        }
      }
    }
  }

  /** The `$` anchor lets one trailing newline through. */
  lemma TrailingNewlineAccepted(m: string)
    requires NoNewline(m) && |m| >= 1 && m[0] != '_' && m[|m| - 1] != '_'
    ensures IsMagicNaming("__" + m + "__\n")
    ensures IsSlimeNaming(m + "__\n")
  {
    MagicNamingOfDunder(m);
    SlimeNamingOfStem(m);
    assert ("__" + m + "__\n")[..|m| + 4] == "__" + m + "__";
    assert (m + "__\n")[..|m| + 2] == m + "__";
  }

  /** No name is both: magic names start with `_`, slime names do not. */
  lemma MagicAndSlimeDisjoint(s: string)
    ensures !(IsMagicNaming(s) && IsSlimeNaming(s))
  {
    if IsMagicNaming(s) {
      assert s[0] == '_' by {
        if !MagicShape(s) {
          assert s[..|s| - 1][..2] == "__";
        }
      }
    }
  }

  // ---------------------------------------------------------------------
  // xor__
  // ---------------------------------------------------------------------

  /** `xor__(x, y)` on the truth values of its arguments. */
  predicate Xor(x: bool, y: bool) {
    (x && !y) || (!x && y)
  }

  lemma XorExactlyOne(x: bool, y: bool)
    ensures Xor(x, y) <==> x != y
    ensures Xor(x, y) == Xor(y, x)
  {
  }

  // ---------------------------------------------------------------------
  // LessThanAnything / GreaterThanAnything
  // ---------------------------------------------------------------------

  datatype Sentinel = LessThanAnything | GreaterThanAnything

  /** A comparison operator, as Python dispatches it. */
  datatype CmpOp = Lt | Le | Eq | Ne | Gt | Ge

  /** The operator Python tries on the right operand when the left one
      returns `NotImplemented` (`a < b` falls back to `b > a`). */
  function Reflected(op: CmpOp): CmpOp {
    match op
    case Lt => Gt
    case Le => Ge
    case Eq => Eq
    case Ne => Ne
    case Gt => Lt
    case Ge => Le
  }

  /** The sentinel's own dunder method; `!=` falls back to negating `__eq__`. */
  function SentinelCompares(s: Sentinel, op: CmpOp): bool {
    match op
    case Lt => s.LessThanAnything?
    case Le => s.LessThanAnything?
    case Eq => false
    case Ne => true
    case Gt => s.GreaterThanAnything?
    case Ge => s.GreaterThanAnything?
  }

  /** An operand of a comparison: a sentinel or a plain number. */
  datatype Operand = Sent(s: Sentinel) | Num(n: int)

  /** `a op b` with Python's dispatch: the left sentinel answers; an `int` on
      the left does not know sentinels, so the reflected method of the right
      operand answers. */
  function PyCompare(a: Operand, op: CmpOp, b: Operand): bool {
    match (a, b)
    case (Sent(s), _) => SentinelCompares(s, op)
    case (Num(x), Sent(t)) => SentinelCompares(t, Reflected(op))
    case (Num(x), Num(y)) =>
      match op
      case Lt => x < y
      case Le => x <= y
      case Eq => x == y
      case Ne => x != y
      case Gt => x > y
      case Ge => x >= y
  }

  /** Integers extended with the two infinities: the reference ordering. */
  datatype ExtInt = NegInf | Fin(n: int) | PosInf

  function Rank(e: ExtInt): int {
    match e
    case NegInf => 0
    case Fin(_) => 1
    case PosInf => 2
  }

  function ExtCompare(a: ExtInt, op: CmpOp, b: ExtInt): bool {
    var lt := Rank(a) < Rank(b) || (a.Fin? && b.Fin? && a.n < b.n);
    var eq := a == b;
    match op
    case Lt => lt
    case Le => lt || eq
    case Eq => eq
    case Ne => !eq
    case Gt => !lt && !eq
    case Ge => !lt
  }

  function AsExt(a: Operand): ExtInt {
    match a
    case Sent(LessThanAnything) => NegInf
    case Sent(GreaterThanAnything) => PosInf
    case Num(n) => Fin(n)
  }

  /** Against any number, on either side and for every operator, the sentinels
      behave as minus and plus infinity. */
  lemma SentinelsAreInfinities(s: Sentinel, x: int, op: CmpOp)
    ensures PyCompare(Sent(s), op, Num(x)) == ExtCompare(AsExt(Sent(s)), op, Fin(x))
    ensures PyCompare(Num(x), op, Sent(s)) == ExtCompare(Fin(x), op, AsExt(Sent(s)))
  {
  }

  /** Unlike an infinity, a sentinel equals nothing, not even itself. */
  lemma SentinelNeverEqual(s: Sentinel, b: Operand)
    ensures !PyCompare(Sent(s), Eq, b) && PyCompare(Sent(s), Ne, b)
    ensures !PyCompare(b, Eq, Sent(s))
    ensures ExtCompare(AsExt(Sent(s)), Eq, AsExt(Sent(s)))
  {
  }
}
