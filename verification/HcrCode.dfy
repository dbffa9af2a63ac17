/**
  How one codeword is written: the code of the table entry, a sign bit for
  each value that is not zero, and the escape sequences of values beyond the
  table (clauses 4.6.3 of ISO/IEC 14496-3, read by libfaad/huffman.c:403-579).
 */
module HcrCode {
  import opened BitWords
  import opened HcrBits
  import opened HcrDecode

  /* ---------- The table entry ---------- */

  predicate Begins(s: seq<bool>, head: seq<bool>) { |head| <= |s| && s[..|head|] == head }

  /** Where the bits lead in a tree: each one moves by the offset of its branch. */
  function NodeAt(nodes: seq<Node>, bits: seq<bool>): nat {
    if bits == [] then 0
    else
      var o := NodeAt(nodes, bits[..|bits| - 1]);
      if o < |nodes| && nodes[o].Branch? then o + (if bits[|bits| - 1] then nodes[o].one else nodes[o].zero)
          else |nodes|
  }

  /** The leaf the bits lead to holds the levels. */
  predicate TreeEntry(nodes: seq<Node>, bits: seq<bool>, levels: seq<int>) {
    NodeAt(nodes, bits) < |nodes| && nodes[NodeAt(nodes, bits)] == Leaf(levels)
  }

  /** Every index that starts with a short code finds its entry in one step. */
  ghost predicate ShortEntry(n: nat, first: seq<First>, second: seq<Entry>, bits: seq<bool>, levels: seq<int>) {
    && |bits| <= n
    && forall p: seq<bool> | |p| == n && Begins(p, bits) ::
         FirstAt(first, p).extra == 0 && EntryAt(first, second, Value(p), 0) == Entry(|bits|, levels)
  }

  /** Every pair of indices that starts with a long code finds its entry in two. */
  ghost predicate LongEntry(n: nat, first: seq<First>, second: seq<Entry>, bits: seq<bool>, levels: seq<int>) {
    && n < |bits| <= n + FirstAt(first, bits[..n]).extra
    && forall q: seq<bool> | |q| == FirstAt(first, bits[..n]).extra && Begins(q, bits[n..]) ::
         EntryAt(first, second, Value(bits[..n]), Value(q)) == Entry(|bits|, levels)
  }

  ghost predicate TableCode(t: Table, bits: seq<bool>, levels: seq<int>) {
    match t
    case Tree(nodes) => TreeEntry(nodes, bits, levels)
    case TwoStep(n, first, second) =>
      ShortEntry(n, first, second, bits, levels) || LongEntry(n, first, second, bits, levels)
  }

  /* ---------- Signs and escapes ---------- */

  /** The largest exponent with 2^e <= m. */
  function Exponent(m: nat): (e: nat)
    requires m > 0
    ensures Power2(e) <= m < Power2(e + 1)
  {
    if m == 1 then 0 else Exponent(m / 2) + 1
  }

  lemma AtLeastFour(m: nat)
    requires m >= 16
    ensures Exponent(m) >= 4
  {
    assert Power2(4) == 16;
    if Exponent(m) < 4 { PowersGrow(Exponent(m) + 1, 4); }
  }

  lemma {:induction false} PowersGrow(a: nat, b: nat)
    requires a <= b
    ensures Power2(a) <= Power2(b)
  {
    if a < b { PowersGrow(a, b - 1); }
  }

  function Ones(n: nat): (r: seq<bool>)
    ensures |r| == n
  {
    seq(n, _ => true)
  }

  /** Is value `i` written with an escape sequence? Only the first two of a codeword are. */
  predicate Escaped(book: Book, v: seq<int>, i: nat)
    requires i < |v|
  {
    book.escape && i < 2 && Abs(v[i]) >= 16
  }

  /** What the table holds for value `i`: 16 stands for every larger one, and an unsigned book knows no sign. */
  function Level(book: Book, v: seq<int>, i: nat): int
    requires i < |v|
  {
    var a := if Escaped(book, v, i) then 16 else Abs(v[i]);
    if v[i] < 0 && !book.unsigned then -a else a
  }

  function Levels(book: Book, v: seq<int>): (r: seq<int>)
    ensures |r| == |v|
  {
    seq(|v|, i requires 0 <= i < |v| => Level(book, v, i))
  }

  /** One bit for each value that is not zero, set for a negative one. */
  function SignBits(v: seq<int>): seq<bool> {
    if v == [] then [] else (if v[0] == 0 then [] else [v[0] < 0]) + SignBits(v[1..])
  }

  /** As many ones as the exponent exceeds 4, a zero, and the magnitude below its highest bit. */
  function EscapeBits(v: int): seq<bool>
    requires Abs(v) >= 16
  {
    var e := Exponent(Abs(v));
    AtLeastFour(Abs(v));
    Ones(e - 4) + [false] + ToBits(Abs(v) - Power2(e), e)
  }

  function EscapesOf(book: Book, v: seq<int>, i: nat): seq<bool> {
    if i < |v| && Escaped(book, v, i) then EscapeBits(v[i]) else []
  }

  /** What follows the code of the table entry. */
  function Tail(book: Book, v: seq<int>): seq<bool> {
    (if book.unsigned then SignBits(v) else []) + EscapesOf(book, v, 0) + EscapesOf(book, v, 1)
  }

  /** `bits` is a codeword for the values `v`. */
  ghost predicate Encodes(book: Book, bits: seq<bool>, v: seq<int>) {
    exists head: seq<bool> :: TableCode(book.table, head, Levels(book, v)) && bits == head + Tail(book, v)
  }

  /* ---------- Reading the table entry ---------- */

  /** The nodes on the way to a leaf are branches. */
  lemma {:induction false} WayIsBranches(nodes: seq<Node>, bits: seq<bool>, k: nat)
    requires k < |bits| && NodeAt(nodes, bits) < |nodes|
    ensures var o := NodeAt(nodes, bits[..k]); o < |nodes| && nodes[o].Branch?
    decreases |bits| - k
  {
    if k < |bits| - 1 {
      WayIsBranches(nodes, bits, k + 1);
      assert bits[..k + 1][..k] == bits[..k];
    }
  }

  lemma {:induction false} WalkRead(nodes: seq<Node>, bits: seq<bool>, levels: seq<int>, t: seq<bool>, k: nat)
    requires WellFormed(Book(Tree(nodes), false, false, 0)) && TreeEntry(nodes, bits, levels) && k <= |bits|
    ensures Walk(nodes, NodeAt(nodes, bits[..k]), bits + t, k) == Got(|bits|, levels)
    decreases |bits| - k
  {
    if k < |bits| {
      WayIsBranches(nodes, bits, k);
      assert bits[..k + 1][..k] == bits[..k];
      WalkRead(nodes, bits, levels, t, k + 1);
    } else {
      assert bits[..k] == bits;
    }
  }

  lemma PeekBegins(head: seq<bool>, t: seq<bool>, n: nat)
    requires |head| <= n
    ensures Begins(Peek(head + t, n), head)
  {}

  lemma ShortRead(n: nat, first: seq<First>, second: seq<Entry>, bits: seq<bool>, levels: seq<int>, t: seq<bool>)
    requires Indexed(n, first, second) && ShortEntry(n, first, second, bits, levels) && bits != []
    ensures LookUp(n, first, second, bits + t) == Got(|bits|, levels)
  {
    hide Peek, Value, Power2, Begins;
    var p := Peek(bits + t, n);
    PeekBegins(bits, t, n);
    IndexBound(p);
  }

  lemma LongRead(n: nat, first: seq<First>, second: seq<Entry>, bits: seq<bool>, levels: seq<int>, t: seq<bool>)
    requires Indexed(n, first, second) && LongEntry(n, first, second, bits, levels)
    ensures LookUp(n, first, second, bits + t) == Got(|bits|, levels)
  {
    hide Value, Power2, Begins;
    assert Peek(bits + t, n) == bits[..n];
    IndexBound(bits[..n]);
    var x := FirstAt(first, bits[..n]).extra;
    assert (bits + t)[n..] == bits[n..] + t;
    PeekBegins(bits[n..], t, x);
    assert EntryAt(first, second, Value(bits[..n]), Value(Peek(bits[n..] + t, x))) == Entry(|bits|, levels);
  }

  /** The table step finds the entry whose code the bits begin with. */
  lemma TableRead(book: Book, head: seq<bool>, levels: seq<int>, t: seq<bool>)
    requires WellFormed(book) && TableCode(book.table, head, levels)
    ensures TableStep(book.table, head + t) == Got(|head|, levels)
  {
    match book.table
    case Tree(nodes) => WalkRead(nodes, head, levels, t, 0);
    case TwoStep(n, first, second) =>
      if ShortEntry(n, first, second, head, levels) {
        NotEmpty(n, first, second, head, levels);
        ShortRead(n, first, second, head, levels, t);
      } else {
        LongRead(n, first, second, head, levels, t);
      }
  }

  lemma NotEmpty(n: nat, first: seq<First>, second: seq<Entry>, bits: seq<bool>, levels: seq<int>)
    requires WellFormed(Book(TwoStep(n, first, second), false, false, 0)) && ShortEntry(n, first, second, bits, levels)
    ensures bits != []
  {
    hide Value;
    var p := bits + Zeros(n - |bits|);
    assert Begins(p, bits);
    IndexBound(p);
  }

  /* ---------- Reading the signs ---------- */

  /** The levels from the i-th value on still without their signs. */
  function Half(levels: seq<int>, v: seq<int>, i: nat): (r: seq<int>)
    requires |levels| == |v| && i <= |v|
    ensures |r| == |v|
  {
    seq(|v|, k requires 0 <= k < |v| => if k < i && v[k] < 0 then -levels[k] else levels[k])
  }

  lemma BeginsRest(s: seq<bool>, a: seq<bool>, b: seq<bool>)
    requires Begins(s, a + b)
    ensures Begins(s, a) && Begins(s[|a|..], b)
  {
    assert s[..|a|] == (a + b)[..|a|] == a;
    assert s[|a|..][..|b|] == (a + b)[|a|..] == b;
  }

  lemma {:induction false} SignsRead(levels: seq<int>, v: seq<int>, i: nat, s: seq<bool>, n: nat)
    requires |levels| == |v| && i <= |v| && n <= |s| && Begins(s[n..], SignBits(v[i..]))
    requires forall k | 0 <= k < |v| :: levels[k] == 0 <==> v[k] == 0
    ensures Signs(Half(levels, v, i), i, s, n) == Got(n + |SignBits(v[i..])|, Half(levels, v, |v|))
    decreases |v| - i
  {
    if i < |v| {
      assert v[i..][1..] == v[i + 1..] && v[i..][0] == v[i];
      var a, b := Half(levels, v, i), Half(levels, v, i + 1);
      if v[i] == 0 {
        assert a == b;
        SignsRead(levels, v, i + 1, s, n);
      } else {
        assert SignBits(v[i..]) == [v[i] < 0] + SignBits(v[i + 1..]);
        assert s[n..][0] == s[n] == (v[i] < 0);
        assert s[n..][1..] == s[n + 1..];
        BeginsRest(s[n..], [v[i] < 0], SignBits(v[i + 1..]));
        assert b == if s[n] then a[i := -a[i]] else a;
        SignsRead(levels, v, i + 1, s, n + 1);
      }
    } else {
      assert v[i..] == [];
    }
  }

  /* ---------- Reading the escapes ---------- */

  lemma {:induction false} PrefixRead(s: seq<bool>, n: nat, k: nat, i: nat)
    requires n + k < |s| && (forall j | n <= j < n + k :: s[j]) && !s[n + k]
    ensures Prefix(s, n, i) == (true, n + k + 1, i + k)
    decreases k
  {
    if k > 0 { PrefixRead(s, n + 1, k - 1, i + 1); }
  }

  /** Sixteen bits of a number, as a signed one. */
  lemma Int16Is(v: int)
    ensures -32768 <= Int16(v) <= 32767 && (Int16(v) - v) % 65536 == 0
    ensures -32768 <= v <= 32767 ==> Int16(v) == v
  {}

  /** An escape sequence gives the value it was written for, in sixteen bits. */
  lemma EscapeRead(values: seq<int>, k: nat, v: int, s: seq<bool>, n: nat)
    requires k < |values| && Abs(v) >= 16 && values[k] == (if v < 0 then -16 else 16)
    requires n <= |s| && Begins(s[n..], EscapeBits(v))
    ensures EscapeOne(values, k, s, n) == Got(n + |EscapeBits(v)|, values[k := Int16(v)])
  {
    hide Value, Int16, Prefix, Exponent;
    var e := Exponent(Abs(v));
    AtLeastFour(Abs(v));
    var bits := EscapeBits(v);
    var offset := ToBits(Abs(v) - Power2(e), e);
    ValueOfBits(Abs(v) - Power2(e), e);
    assert |bits| == (e - 4) + 1 + e;
    forall j | 0 <= j < |bits|
      ensures s[n + j] == bits[j]
    {
      assert s[n..][..|bits|][j] == s[n + j];
    }
    forall j | n <= j < n + (e - 4)
      ensures s[j]
    {
      assert bits[j - n];
    }
    assert s[n + (e - 4)] == bits[e - 4] == false;
    PrefixRead(s, n, e - 4, 4);
    var p := n + (e - 4) + 1;
    assert |s[p..p + e]| == e;
    forall j | 0 <= j < e
      ensures s[p..p + e][j] == offset[j]
    {
      assert s[p + j] == bits[(e - 4) + 1 + j] == offset[j];
    }
    assert s[p..p + e] == offset;
  }

  /* ---------- Reading a codeword ---------- */

  /** The values after the signs and before the escapes. */
  ghost predicate Signed(book: Book, v: seq<int>, w: seq<int>) {
    && |w| == |v|
    && forall k | 0 <= k < |v| ::
         w[k] == if Escaped(book, v, k) then (if v[k] < 0 then -16 else 16) else v[k]
  }

  lemma SignsWritten(book: Book, v: seq<int>, s: seq<bool>, n: nat)
    requires n <= |s| && Begins(s[n..], if book.unsigned then SignBits(v) else [])
    ensures var r := if book.unsigned then Signs(Levels(book, v), 0, s, n) else Got(n, Levels(book, v));
            r.Got? && r.n == n + (if book.unsigned then |SignBits(v)| else 0) && Signed(book, v, r.values)
  {
    if book.unsigned {
      var levels := Levels(book, v);
      assert v[0..] == v && Half(levels, v, 0) == levels;
      SignsRead(levels, v, 0, s, n);
    }
  }

  /** One of the two values that may be escaped. */
  lemma EscapeWritten(book: Book, v: seq<int>, w: seq<int>, k: nat, s: seq<bool>, n: nat)
    requires book.escape && k < 2 && |w| == |v| && n <= |s| && Begins(s[n..], EscapesOf(book, v, k))
    requires k < |v| ==> w[k] == if Escaped(book, v, k) then (if v[k] < 0 then -16 else 16) else v[k]
    ensures EscapeOne(w, k, s, n)
         == Got(n + |EscapesOf(book, v, k)|, if k < |v| && Escaped(book, v, k) then w[k := Int16(v[k])] else w)
  {
    hide EscapeBits, Int16;
    if k < |v| && Escaped(book, v, k) { EscapeRead(w, k, v[k], s, n); }
  }

  /** The values in the sixteen bits the code has for them. */
  function Stored(book: Book, v: seq<int>): (r: seq<int>)
    ensures |r| == |v|
  {
    seq(|v|, k requires 0 <= k < |v| => if Escaped(book, v, k) then Int16(v[k]) else v[k])
  }

  lemma EscapesWritten(book: Book, v: seq<int>, w: seq<int>, s: seq<bool>, n: nat)
    requires book.escape && Signed(book, v, w) && n <= |s|
    requires Begins(s[n..], EscapesOf(book, v, 0) + EscapesOf(book, v, 1))
    ensures Escapes(w, s, n) == Got(n + |EscapesOf(book, v, 0)| + |EscapesOf(book, v, 1)|, Stored(book, v))
  {
    hide EscapesOf, EscapeOne, Int16;
    var a, b := EscapesOf(book, v, 0), EscapesOf(book, v, 1);
    BeginsRest(s[n..], a, b);
    assert s[n..][|a|..] == s[n + |a|..];
    EscapeWritten(book, v, w, 0, s, n);
    var w' := EscapeOne(w, 0, s, n).values;
    EscapeWritten(book, v, w', 1, s, n + |a|);
    assert EscapeOne(w', 1, s, n + |a|).values == Stored(book, v);
  }

  lemma Parts(head: seq<bool>, signs: seq<bool>, a: seq<bool>, b: seq<bool>, t: seq<bool>)
    ensures var s := head + (signs + a + b) + t;
            && s == head + (signs + a + b + t) && |s| >= |head| + |signs|
            && Begins(s[|head|..], signs) && Begins(s[|head| + |signs|..], a + b)
  {
    var s := head + (signs + a + b) + t;
    assert s[|head|..] == signs + (a + b + t);
    assert s[|head| + |signs|..] == (a + b) + t;
  }

  /** Reading back what was written, whatever follows it. */
  lemma WrittenRead(book: Book, bits: seq<bool>, v: seq<int>, t: seq<bool>)
    requires WellFormed(book) && Encodes(book, bits, v)
    ensures Decode(book, bits + t)
         == Got(|bits|, if book.escape then CheckLav(book.lav, Stored(book, v)) else v)
  {
    hide WellFormed, TableCode, SignBits, EscapesOf, Begins, TableStep, Signs, Escapes, Levels, CheckLav, Stored;
    var head: seq<bool> :| TableCode(book.table, head, Levels(book, v)) && bits == head + Tail(book, v);
    var s := bits + t;
    var signs := if book.unsigned then SignBits(v) else [];
    Parts(head, signs, EscapesOf(book, v, 0), EscapesOf(book, v, 1), t);
    TableRead(book, head, Levels(book, v), Tail(book, v) + t);
    SignsWritten(book, v, s, |head|);
    var n := |head| + |signs|;
    var u := if book.unsigned then Signs(Levels(book, v), 0, s, |head|) else Got(|head|, Levels(book, v));
    if book.escape {
      EscapesWritten(book, v, u.values, s, n);
    } else {
      assert EscapesOf(book, v, 0) == EscapesOf(book, v, 1) == [] by { NoEscapes(book, v); }
      assert u.values == v;
    }
  }

  lemma NoEscapes(book: Book, v: seq<int>)
    requires !book.escape
    ensures EscapesOf(book, v, 0) == EscapesOf(book, v, 1) == []
  {}

  /** No value is larger than the book allows, nor than sixteen bits hold. */
  predicate InRange(book: Book, v: seq<int>) {
    book.escape ==>
      && (forall k | 0 <= k < |v| && k < 2 :: -32768 <= v[k] <= 32767)
      && (book.lav > 0 && |v| >= 2 ==> Abs(v[0]) <= book.lav && Abs(v[1]) <= book.lav)
  }

  /** A codeword is complete where it ends, and its values are those it was written for. */
  lemma WrittenIs(book: Book, bits: seq<bool>, v: seq<int>, t: seq<bool>)
    requires WellFormed(book) && Encodes(book, bits, v) && InRange(book, v)
    ensures Decode(book, bits + t) == Got(|bits|, v)
  {
    hide WellFormed, Encodes, Decode, Int16;
    WrittenRead(book, bits, v, t);
    if book.escape {
      forall k | 0 <= k < |v|
        ensures Stored(book, v)[k] == v[k]
      {
        Int16Is(v[k]);
      }
      assert Stored(book, v) == v;
    }
  }

  /** A codeword of a virtual codebook with a value above its limit gives two zeros. */
  lemma AboveLimit(book: Book, bits: seq<bool>, v: seq<int>, t: seq<bool>)
    requires WellFormed(book) && Encodes(book, bits, v) && |v| == 2 && book.escape
    requires -32768 <= v[0] <= 32767 && -32768 <= v[1] <= 32767
    requires 0 < book.lav && (Abs(v[0]) > book.lav || Abs(v[1]) > book.lav)
    ensures Decode(book, bits + t) == Got(|bits|, [0, 0])
  {
    hide WellFormed, Encodes, Decode, Int16;
    WrittenRead(book, bits, v, t);
    Int16Is(v[0]);
    Int16Is(v[1]);
    assert Stored(book, v) == v;
    assert v[0 := 0][1 := 0] == [0, 0];
  }

  /** `huffman_spectral_data_2` on a written codeword: its values, and what followed it is left. */
  method ReadWritten(book: Book, b: Bits64, ghost bits: seq<bool>, ghost v: seq<int>, ghost t: seq<bool>)
    returns (ret: int, r: Bits64, values: seq<int>)
    requires WellFormed(book) && b.len <= 63
    requires Content(b) == bits + t && Encodes(book, bits, v) && InRange(book, v)
    ensures ret == |t| && values == v && r.len == |t| && Content(r) == t
  {
    hide WellFormed, Encodes, InRange, Decode, Content;
    WrittenIs(book, bits, v, t);
    ret, r, values := SpectralData2(book, b);
    assert (bits + t)[|bits|..] == t;
  }

  /* ---------- Whatever is decoded was written so ---------- */

  /** What codebooks hold: no sign where sign bits follow, and pairs up to 16 where escapes may. */
  ghost predicate Standard(book: Book) {
    forall head: seq<bool>, levels: seq<int> | TableCode(book.table, head, levels) ::
      && (book.unsigned ==> forall k | 0 <= k < |levels| :: levels[k] >= 0)
      && (book.escape ==> |levels| == 2 && Abs(levels[0]) <= 16 && Abs(levels[1]) <= 16)
  }

  lemma {:induction false} WalkBack(nodes: seq<Node>, s: seq<bool>, k: nat)
    requires k <= |s| && NodeAt(nodes, s[..k]) < |nodes| && Walk(nodes, NodeAt(nodes, s[..k]), s, k).Got?
    ensures var r := Walk(nodes, NodeAt(nodes, s[..k]), s, k); r.n <= |s| && TreeEntry(nodes, s[..r.n], r.values)
    decreases |s| - k
  {
    var o := NodeAt(nodes, s[..k]);
    if nodes[o].Branch? {
      assert s[..k + 1][..k] == s[..k];
      WalkBack(nodes, s, k + 1);
    }
  }

  lemma PeekWhole(s: seq<bool>, n: nat)
    requires n <= |s|
    ensures Peek(s, n) == s[..n]
  {}

  lemma BeginsAgree(s: seq<bool>, q: seq<bool>, n: nat, k: nat)
    requires k <= |s| && k <= n == |q| && Begins(q, s[..k])
    ensures Agree(Peek(s, n), q, k)
  {}

  lemma ShortBack(n: nat, first: seq<First>, second: seq<Entry>, s: seq<bool>)
    requires Indexed(n, first, second) && ShortFree(n, first, second)
    requires FirstAt(first, Peek(s, n)).extra == 0 && CodeBits(first, second, Peek(s, n)) <= n
    requires LookUp(n, first, second, s).Got?
    ensures var r := LookUp(n, first, second, s);
            r.n <= |s| && ShortEntry(n, first, second, s[..r.n], r.values)
  {
    hide Value, Power2, Begins, Agree, Peek;
    var p := Peek(s, n);
    IndexBound(p);
    var r := LookUp(n, first, second, s);
    forall q: seq<bool> | |q| == n && Begins(q, s[..r.n])
      ensures FirstAt(first, q).extra == 0 && EntryAt(first, second, Value(q), 0) == Entry(r.n, r.values)
    {
      IndexBound(q);
      BeginsAgree(s, q, n, r.n);
      assert FirstAt(first, p) == FirstAt(first, q);
    }
  }

  lemma LongBack(n: nat, first: seq<First>, second: seq<Entry>, s: seq<bool>)
    requires Indexed(n, first, second) && LongFree(n, first, second) && n <= |s|
    requires var f := FirstAt(first, Peek(s, n)); f.extra > 0
    requires forall e: nat | e < Power2(FirstAt(first, Peek(s, n)).extra) ::
               n < BitsAt(first, second, Value(Peek(s, n)), e) <= n + FirstAt(first, Peek(s, n)).extra
    requires LookUp(n, first, second, s).Got?
    ensures var r := LookUp(n, first, second, s);
            r.n <= |s| && LongEntry(n, first, second, s[..r.n], r.values)
  {
    hide Value, Power2, Begins, Agree, Peek;
    assert |s| >= n ==> Peek(s, n) == s[..n] by { PeekWhole(s, n); }
    var c := Value(Peek(s, n));
    IndexBound(Peek(s, n));
    var x := first[c].extra;
    var u := Peek(s[n..], x);
    IndexBound(u);
    var r := LookUp(n, first, second, s);
    assert n < BitsAt(first, second, c, Value(u)) <= n + x;
    assert s[..r.n][..n] == s[..n] == Peek(s, n);
    forall q: seq<bool> | |q| == x && Begins(q, s[..r.n][n..])
      ensures EntryAt(first, second, c, Value(q)) == Entry(r.n, r.values)
    {
      assert s[..r.n][n..] == s[n..][..r.n - n];
      BeginsAgree(s[n..], q, x, r.n - n);
      assert EntryAt(first, second, c, Value(u)) == EntryAt(first, second, c, Value(q));
    }
  }

  /** A table step that succeeds has read the code of an entry. */
  lemma TableBack(book: Book, s: seq<bool>)
    requires WellFormed(book) && PrefixFree(book.table) && TableStep(book.table, s).Got?
    ensures var r := TableStep(book.table, s); r.n <= |s| && TableCode(book.table, s[..r.n], r.values)
  {
    hide Value, Peek, ShortFree, LongFree, ShortEntry, LongEntry;
    match book.table
    case Tree(nodes) => WalkBack(nodes, s, 0);
    case TwoStep(n, first, second) =>
      IndexBound(Peek(s, n));
      if FirstAt(first, Peek(s, n)).extra == 0 {
        ShortBack(n, first, second, s);
      } else {
        LongBack(n, first, second, s);
      }
  }

  lemma {:induction false} SignsBack(values: seq<int>, i: nat, s: seq<bool>, n: nat)
    requires i <= |values| && n <= |s| && Signs(values, i, s, n).Got?
    requires forall k | i <= k < |values| :: values[k] >= 0
    ensures var r := Signs(values, i, s, n);
            && n <= r.n <= |s| && |r.values| == |values| && r.values[..i] == values[..i]
            && s[n..r.n] == SignBits(r.values[i..])
            && forall k | i <= k < |values| :: Abs(r.values[k]) == values[k]
    decreases |values| - i
  {
    var r := Signs(values, i, s, n);
    if i < |values| {
      var next := if values[i] != 0 && s[n] then values[i := -values[i]] else values;
      var m := if values[i] != 0 then n + 1 else n;
      SignsBack(next, i + 1, s, m);
      assert r.values[i] == r.values[..i + 1][i] == next[..i + 1][i] == next[i];
      assert r.values[..i] == r.values[..i + 1][..i] == next[..i + 1][..i] == values[..i];
      assert r.values[i..][1..] == r.values[i + 1..];
      assert s[n..r.n] == s[n..m] + s[m..r.n];
    }
  }

  lemma {:induction false} PrefixBack(s: seq<bool>, n: nat, i: nat)
    requires n <= |s| && Prefix(s, n, i).0
    ensures var p := Prefix(s, n, i);
            && p.2 >= i && p.1 == n + (p.2 - i) + 1 <= |s| && !s[p.1 - 1]
            && forall j | n <= j < p.1 - 1 :: s[j]
    decreases |s| - n
  {
    if s[n] { PrefixBack(s, n + 1, i + 1); }
  }

  lemma ExponentIs(m: nat, e: nat)
    requires Power2(e) <= m < Power2(e + 1) && m > 0
    ensures Exponent(m) == e
  {
    hide Power2;
    if Exponent(m) < e { PowersGrow(Exponent(m) + 1, e); }
    if Exponent(m) > e { PowersGrow(e + 1, Exponent(m)); }
  }

  /** An escape sequence that was read is that of a value. */
  lemma EscapeBack(w: seq<int>, k: nat, s: seq<bool>, n: nat) returns (x: int)
    requires k < |w| && (w[k] == 16 || w[k] == -16) && n <= |s| && EscapeOne(w, k, s, n).Got?
    ensures Abs(x) >= 16 && (x < 0 <==> w[k] < 0)
    ensures var r := EscapeOne(w, k, s, n);
            n <= r.n <= |s| && s[n..r.n] == EscapeBits(x) && r.values == w[k := Int16(x)]
  {
    hide Value, Power2, Int16, Prefix, Exponent;
    PrefixBack(s, n, 4);
    var p := Prefix(s, n, 4);
    var e := p.2;
    var bits := s[p.1..p.1 + e];
    IndexBound(bits);
    ToBitsValue(bits);
    var j := Value(bits) + Power2(e);
    PowerIs(e);
    PowersGrow(4, e);
    ExponentIs(j, e);
    x := if w[k] < 0 then -j else j;
    assert s[n..p.1 + e] == Ones(e - 4) + [false] + bits;
  }

  lemma PowerIs(e: nat)
    ensures Power2(4) == 16 && Power2(e + 1) == 2 * Power2(e)
  {}

  lemma {:induction false} SameSigns(v: seq<int>, w: seq<int>)
    requires |v| == |w| && forall k | 0 <= k < |v| :: (v[k] < 0 <==> w[k] < 0) && (v[k] == 0 <==> w[k] == 0)
    ensures SignBits(v) == SignBits(w)
  {
    if v != [] { SameSigns(v[1..], w[1..]); }
  }

  /** One of the two values that may be escaped, from its bits. */
  lemma ValueBack(book: Book, w: seq<int>, k: nat, s: seq<bool>, n: nat) returns (x: int)
    requires book.escape && k < 2 == |w| && Abs(w[k]) <= 16 && n <= |s| && EscapeOne(w, k, s, n).Got?
    ensures if Abs(w[k]) == 16 then Abs(x) >= 16 && (x < 0 <==> w[k] < 0) else x == w[k]
    ensures var r := EscapeOne(w, k, s, n);
            && n <= r.n <= |s| && r.values == w[k := if Abs(x) >= 16 then Int16(x) else x]
            && s[n..r.n] == if Abs(x) >= 16 then EscapeBits(x) else []
  {
    hide EscapeBits, Int16;
    if Abs(w[k]) == 16 {
      x := EscapeBack(w, k, s, n);
    } else {
      x := w[k];
      assert w[k := x] == w;
    }
  }

  lemma LevelsBack(book: Book, levels: seq<int>, w: seq<int>, v: seq<int>)
    requires |levels| == |w| == |v|
    requires if book.unsigned then forall k | 0 <= k < |w| :: levels[k] >= 0 && Abs(w[k]) == levels[k] else w == levels
    requires if book.escape then
               && |v| == 2
               && forall k | 0 <= k < 2 ::
                    Abs(w[k]) <= 16 && if Abs(w[k]) == 16 then Abs(v[k]) >= 16 && (v[k] < 0 <==> w[k] < 0)
                        else v[k] == w[k]
             else v == w
    ensures Levels(book, v) == levels && (book.unsigned ==> SignBits(v) == SignBits(w))
  {
    if book.unsigned { SameSigns(v, w); }
  }

  lemma StoredPair(book: Book, v: seq<int>)
    requires book.escape && |v| == 2
    ensures Stored(book, v) == [if Abs(v[0]) >= 16 then Int16(v[0]) else v[0],
                                if Abs(v[1]) >= 16 then Int16(v[1]) else v[1]]
  {
    hide Int16;
  }

  lemma EscapesBack(book: Book, w: seq<int>, s: seq<bool>, n: nat) returns (v: seq<int>)
    requires book.escape && |w| == 2 && Abs(w[0]) <= 16 && Abs(w[1]) <= 16
    requires n <= |s| && Escapes(w, s, n).Got?
    ensures |v| == 2
    ensures forall k | 0 <= k < 2 ::
              if Abs(w[k]) == 16 then Abs(v[k]) >= 16 && (v[k] < 0 <==> w[k] < 0) else v[k] == w[k]
    ensures var r := Escapes(w, s, n);
            && n <= r.n <= |s| && r.values == Stored(book, v)
            && s[n..r.n] == EscapesOf(book, v, 0) + EscapesOf(book, v, 1)
  {
    hide EscapeOne, EscapeBits, Int16, Stored;
    var x := ValueBack(book, w, 0, s, n);
    var a := EscapeOne(w, 0, s, n);
    assert a.values[1] == w[1];
    var y := ValueBack(book, a.values, 1, s, a.n);
    v := [x, y];
    StoredPair(book, v);
    var b := EscapeOne(a.values, 1, s, a.n);
    assert s[n..b.n] == s[n..a.n] + s[a.n..b.n];
  }

  /** The values before the last sixteen bits are taken, from the bits after the table entry. */
  lemma TailBack(book: Book, levels: seq<int>, s: seq<bool>, n: nat) returns (v: seq<int>)
    requires n <= |s| && (book.unsigned ==> forall k | 0 <= k < |levels| :: levels[k] >= 0)
    requires book.escape ==> |levels| == 2 && Abs(levels[0]) <= 16 && Abs(levels[1]) <= 16
    requires var u := if book.unsigned then Signs(levels, 0, s, n) else Got(n, levels);
             u.Got? && (book.escape ==> Escapes(u.values, s, u.n).Got?)
    ensures var u := if book.unsigned then Signs(levels, 0, s, n) else Got(n, levels);
            var r := if book.escape then Escapes(u.values, s, u.n) else u;
            && n <= r.n <= |s| && s[n..r.n] == Tail(book, v) && Levels(book, v) == levels
            && r.values == if book.escape then Stored(book, v) else v
  {
    hide Escapes, EscapesOf, Int16, SignBits, Signs, Levels, Stored;
    var u := if book.unsigned then Signs(levels, 0, s, n) else Got(n, levels);
    if book.unsigned {
      SignsBack(levels, 0, s, n);
      assert u.values[0..] == u.values;
    }
    var w := u.values;
    if book.escape {
      v := EscapesBack(book, w, s, u.n);
      LevelsBack(book, levels, w, v);
      var r := Escapes(w, s, u.n);
      assert s[n..r.n] == s[n..u.n] + s[u.n..r.n];
    } else {
      v := w;
      LevelsBack(book, levels, w, v);
      NoEscapes(book, v);
      assert s[n..u.n] == Tail(book, v);
    }
  }

  /** Every codeword the code accepts is one the writer puts down, with the values it was written for. */
  lemma DecodedIsWritten(book: Book, s: seq<bool>) returns (v: seq<int>)
    requires WellFormed(book) && PrefixFree(book.table) && Standard(book) && Decode(book, s).Got?
    ensures var r := Decode(book, s);
            && r.n <= |s| && Encodes(book, s[..r.n], v)
            && r.values == if book.escape then CheckLav(book.lav, Stored(book, v)) else v
  {
    hide WellFormed, PrefixFree, TableCode, TableStep, Signs, Escapes, Levels, CheckLav, Stored, Tail;
    TableBack(book, s);
    var t := TableStep(book.table, s);
    v := TailBack(book, t.values, s, t.n);
    var r := Decode(book, s);
    assert s[..r.n] == s[..t.n] + s[t.n..r.n];
  }
}
