/**
  `huffman_spectral_data_2` (libfaad/huffman.c:403-579) over arbitrary
  prefix-code tables, and what it means on plain bit strings.
 */
module HcrDecode {
  import opened BitWords
  import opened HcrBits

  datatype First = First(offset: nat, extra: nat)
  datatype Entry = Entry(bits: nat, values: seq<int>)
  datatype Node = Leaf(values: seq<int>) | Branch(zero: nat, one: nat)

  /** A codebook: two lookup steps, or a binary tree with relative offsets. */
  datatype Table = TwoStep(n: nat, first: seq<First>, second: seq<Entry>) | Tree(nodes: seq<Node>)

  /** With the flags of the codebook: sign bits follow; escapes follow; the largest absolute value, 0 for none. */
  datatype Book = Book(table: Table, unsigned: bool, escape: bool, lav: nat)

  /** The codeword length for first-step index `c` and second-step index `e`. */
  function BitsAt(first: seq<First>, second: seq<Entry>, c: nat, e: nat): nat {
    if c < |first| && first[c].offset + e < |second| then second[first[c].offset + e].bits else 0
  }

  ghost predicate WellFormed(book: Book) {
    match book.table
    case TwoStep(n, first, second) =>
      && 1 <= n <= 8 && |first| == Power2(n)
      && (forall c | 0 <= c < |first| :: first[c].extra <= 16 && first[c].offset + Power2(first[c].extra) <= |second|)
      && (forall c | 0 <= c < |first| && first[c].extra == 0 :: 1 <= second[first[c].offset].bits <= n)
      && (forall o | 0 <= o < |second| :: |second[o].values| in {2, 4})
      && (forall c: nat, e: nat | c < |first| && first[c].extra > 0 && e < Power2(first[c].extra) ::
            n < BitsAt(first, second, c, e) <= n + first[c].extra)
    case Tree(nodes) =>
      && |nodes| > 0 && nodes[0].Branch?
      && forall o | 0 <= o < |nodes| ::
           match nodes[o]
           case Leaf(v) => |v| in {2, 4}
           case Branch(a, b) => a > 0 && b > 0 && o + a < |nodes| && o + b < |nodes|
  }

  /** What decoding a bit string gives: more bits are needed, or `n` bits made `values`. */
  datatype Result = Need | Got(n: nat, values: seq<int>)

  lemma IndexBound(s: seq<bool>)
    ensures Value(s) < Power2(|s|)
  {
    ValueBound(s);
  }

  /* ---------- The table step ---------- */

  function LookUp(n: nat, first: seq<First>, second: seq<Entry>, s: seq<bool>): Result {
    var c := Value(Peek(s, n));
    if c >= |first| then Need
    else
      var f := first[c];
      if f.extra > 0 then
        if n > |s| then Need
        else
          var o := f.offset + Value(Peek(s[n..], f.extra));
          if o >= |second| || second[o].bits > |s| then Need else Got(second[o].bits, second[o].values)
      else if f.offset >= |second| || second[f.offset].bits > |s| then Need
      else Got(second[f.offset].bits, second[f.offset].values)
  }

  /** Walking the tree from node `o` after `n` bits. */
  function Walk(nodes: seq<Node>, o: nat, s: seq<bool>, n: nat): Result
    decreases |nodes| - o
  {
    if o >= |nodes| then Need
    else
      match nodes[o]
      case Leaf(v) => Got(n, v)
      case Branch(a, b) =>
        if n >= |s| || a == 0 || b == 0 then Need else Walk(nodes, o + (if s[n] then b else a), s, n + 1)
  }

  function TableStep(t: Table, s: seq<bool>): Result {
    match t
    case TwoStep(n, first, second) => LookUp(n, first, second, s)
    case Tree(nodes) => Walk(nodes, 0, s, 0)
  }

  /* ---------- Signs and escapes ---------- */

  /** One sign bit for each value from the i-th on that is not zero. */
  function Signs(values: seq<int>, i: nat, s: seq<bool>, n: nat): Result
    decreases |values| - i
  {
    if i >= |values| then Got(n, values)
    else if values[i] == 0 then Signs(values, i + 1, s, n)
    else if n >= |s| then Need
    else Signs(if s[n] then values[i := -values[i]] else values, i + 1, s, n + 1)
  }

  /** The escape prefix: ones counted from 4, ended by a zero. */
  function Prefix(s: seq<bool>, n: nat, i: nat): (r: (bool, nat, nat))
    decreases |s| - n
  {
    if n >= |s| then (false, n, i) else if s[n] then Prefix(s, n + 1, i + 1) else (true, n + 1, i)
  }

  function Int16(v: int): int { (v + 32768) % 65536 - 32768 }

  /** One escaped value. */
  function EscapeOne(values: seq<int>, k: nat, s: seq<bool>, n: nat): Result {
    if k >= |values| || (values[k] != 16 && values[k] != -16) then Got(n, values)
    else
      var p := Prefix(s, n, 4);
      if !p.0 || p.1 + p.2 > |s| || p.1 > |s| then Need
      else
        var j := Value(s[p.1..p.1 + p.2]) + Power2(p.2);
        Got(p.1 + p.2, values[k := Int16(if values[k] < 0 then -j else j)])
  }

  function Escapes(values: seq<int>, s: seq<bool>, n: nat): Result {
    var r := EscapeOne(values, 0, s, n);
    if r.Need? then Need else EscapeOne(r.values, 1, s, r.n)
  }

  function Abs(v: int): int { if v < 0 then -v else v }

  /** `vcb11_check_LAV`. */
  function CheckLav(lav: nat, v: seq<int>): (r: seq<int>) {
    if lav > 0 && |v| >= 2 && (Abs(v[0]) > lav || Abs(v[1]) > lav) then v[0 := 0][1 := 0] else v
  }

  /** Decoding one codeword from the start of a bit string. */
  function Decode(book: Book, s: seq<bool>): Result {
    var t := TableStep(book.table, s);
    if t.Need? then Need
    else
      var u := if book.unsigned then Signs(t.values, 0, s, t.n) else t;
      if u.Need? then Need
      else
        var e := if book.escape then Escapes(u.values, s, u.n) else u;
        if e.Need? then Need else Got(e.n, if book.escape then CheckLav(book.lav, e.values) else e.values)
  }

  /* ---------- How many bits a codeword takes ---------- */

  lemma {:induction false} WalkTakes(nodes: seq<Node>, o: nat, s: seq<bool>, n: nat)
    requires n <= |s|
    ensures var r := Walk(nodes, o, s, n); r.Got? ==> n <= r.n <= |s| && (o < |nodes| && nodes[o].Branch? ==> n < r.n)
    decreases |nodes| - o
  {
    if o < |nodes| && nodes[o].Branch? && n < |s| && nodes[o].zero > 0 && nodes[o].one > 0 {
      WalkTakes(nodes, o + (if s[n] then nodes[o].one else nodes[o].zero), s, n + 1);
    }
  }

  lemma {:induction false} SignsTake(values: seq<int>, i: nat, s: seq<bool>, n: nat)
    requires n <= |s|
    ensures var r := Signs(values, i, s, n); r.Got? ==> n <= r.n <= |s| && |r.values| == |values|
    decreases |values| - i
  {
    if i < |values| {
      if values[i] == 0 {
        SignsTake(values, i + 1, s, n);
      } else if n < |s| {
        SignsTake(if s[n] then values[i := -values[i]] else values, i + 1, s, n + 1);
      }
    }
  }

  lemma {:induction false} PrefixTakes(s: seq<bool>, n: nat, i: nat)
    requires n <= |s|
    ensures var p := Prefix(s, n, i); n <= p.1 <= |s| && p.2 >= i && (p.0 ==> p.1 - n == p.2 - i + 1)
    decreases |s| - n
  {
    if n < |s| && s[n] { PrefixTakes(s, n + 1, i + 1); }
  }

  lemma EscapeTakes(values: seq<int>, k: nat, s: seq<bool>, n: nat)
    requires n <= |s|
    ensures var r := EscapeOne(values, k, s, n); r.Got? ==> n <= r.n <= |s| && |r.values| == |values|
  {
    PrefixTakes(s, n, 4);
  }

  /** A codeword takes at least one bit and no more than there are. */
  lemma DecodeTakes(book: Book, s: seq<bool>)
    requires WellFormed(book)
    ensures var r := Decode(book, s); r.Got? ==> 1 <= r.n <= |s|
  {
    var t := TableStep(book.table, s);
    TableTakes(book, s);
    if t.Got? {
      if book.unsigned { SignsTake(t.values, 0, s, t.n); }
      var u := if book.unsigned then Signs(t.values, 0, s, t.n) else t;
      if u.Got? && book.escape {
        EscapeTakes(u.values, 0, s, u.n);
        var r := EscapeOne(u.values, 0, s, u.n);
        if r.Got? { EscapeTakes(r.values, 1, s, r.n); }
      }
    }
  }

  lemma TableTakes(book: Book, s: seq<bool>)
    requires WellFormed(book)
    ensures var t := TableStep(book.table, s); t.Got? ==> 1 <= t.n <= |s|
  {
    match book.table
    case Tree(nodes) => WalkTakes(nodes, 0, s, 0);
    case TwoStep(n, first, second) =>
      var c := Value(Peek(s, n));
      if c < |first| && first[c].extra > 0 && n <= |s| {
        var e := Value(Peek(s[n..], first[c].extra));
        IndexBound(Peek(s[n..], first[c].extra));
        assert n < BitsAt(first, second, c, e);
      }
  }

  /* ---------- The code ---------- */

  /** `getbits_hcr` for one bit. */
  method Get1Bit(b: Bits64) returns (failed: bool, bit: bool, r: Bits64)
    requires b.len <= 63
    ensures r.bufa == b.bufa && r.bufb == b.bufb
    ensures failed <==> b.len == 0
    ensures failed ==> r.len == 0
    ensures !failed ==> r.len == b.len - 1 && Content(r) == Content(b)[1..] && bit == Content(b)[0]
  {
    ShowBitsIs(b, 1);
    bit := ShowBits(b, 1)[31];
    var f := FlushBits(b, 1);
    FlushBitsIs(b, 1);
    failed, r := f.0, f.1;
  }

  /** The two-step lookup of the first `switch`; on failure nothing is left. */
  method TwoStepCode(n: nat, first: seq<First>, second: seq<Entry>, b: Bits64)
    returns (failed: bool, r: Bits64, values: seq<int>)
    requires b.len <= 63 && 1 <= n <= 8 && |first| == Power2(n)
    requires forall c | 0 <= c < |first| :: first[c].extra <= 16 && first[c].offset + Power2(first[c].extra) <= |second|
    requires forall c: nat, e: nat | c < |first| && first[c].extra > 0 && e < Power2(first[c].extra) ::
               n < BitsAt(first, second, c, e) <= n + first[c].extra
    ensures r.bufa == b.bufa && r.bufb == b.bufb
    ensures var t := LookUp(n, first, second, Content(b));
            && (failed <==> t.Need?)
            && (failed ==> r.len == 0)
            && (!failed ==> t.n <= b.len && r.len == b.len - t.n)
            && (!failed ==> Content(r) == Content(b)[t.n..] && values == t.values)
  {
    hide Content, FlushBits, ShowBits, Power2, Value, Peek;
    var s := Content(b);
    values, failed := [], true;
    ShowBitsIs(b, n);
    ValueZeros(32 - n, Peek(s, n));
    IndexBound(Peek(s, n));
    var cw := Value(ShowBits(b, n));
    var offset := first[cw].offset;
    var extra := first[cw].extra;
    PowerPositive(extra);
    if extra != 0 {
      FlushBitsIs(b, n);
      r := FlushBits(b, n).1;
      if FlushBits(b, n).0 { Kept(b, n); return; }
      Kept(b, n);
      ShowBitsIs(r, extra);
      ValueZeros(32 - extra, Peek(s[n..], extra));
      IndexBound(Peek(s[n..], extra));
      var more := Value(ShowBits(r, extra));
      assert BitsAt(first, second, cw, more) == second[offset + more].bits;
      offset := offset + more;
      var f := FlushBits(r, second[offset].bits - n);
      FlushBitsIs(r, second[offset].bits - n);
      Kept(r, second[offset].bits - n);
      failed, r := f.0, f.1;
    } else {
      var f := FlushBits(b, second[offset].bits);
      FlushBitsIs(b, second[offset].bits);
      Kept(b, second[offset].bits);
      failed, r := f.0, f.1;
    }
    if !failed { values := second[offset].values; }
  }

  lemma Kept(b: Bits64, n: nat)
    ensures FlushBits(b, n).1 == b.(len := if n > b.len then 0 else b.len - n)
  {}

  lemma {:induction false} PowerPositive(n: nat)
    ensures Power2(n) >= 1
  {
    if n > 0 { PowerPositive(n - 1); }
  }

  /** The binary search of the codebooks that have a tree. */
  method TreeCode(nodes: seq<Node>, b: Bits64) returns (failed: bool, r: Bits64, values: seq<int>)
    requires b.len <= 63 && |nodes| > 0
    requires forall o | 0 <= o < |nodes| && nodes[o].Branch? ::
               nodes[o].zero > 0 && nodes[o].one > 0 && o + nodes[o].zero < |nodes| && o + nodes[o].one < |nodes|
    ensures r.bufa == b.bufa && r.bufb == b.bufb
    ensures var t := Walk(nodes, 0, Content(b), 0);
            && (failed <==> t.Need?)
            && (failed ==> r.len == 0)
            && (!failed ==> t.n <= b.len && r.len == b.len - t.n)
            && (!failed ==> Content(r) == Content(b)[t.n..] && values == t.values)
  {
    hide Content;
    ghost var s := Content(b);
    r, values, failed := b, [], false;
    var offset := 0;
    ghost var n: nat := 0;
    while nodes[offset].Branch?
      invariant 0 <= offset < |nodes| && n <= b.len && r.len == b.len - n && Content(r) == s[n..]
      invariant r.bufa == b.bufa && r.bufb == b.bufb
      invariant Walk(nodes, 0, s, 0) == Walk(nodes, offset, s, n)
      decreases |nodes| - offset
    {
      var bit;
      failed, bit, r := Get1Bit(r);
      if failed { return; }
      assert s[n..][1..] == s[n + 1..];
      offset := offset + if bit then nodes[offset].one else nodes[offset].zero;
      n := n + 1;
    }
    values := nodes[offset].values;
  }

  method SignsCode(given: seq<int>, b: Bits64, ghost s: seq<bool>, ghost n0: nat)
    returns (failed: bool, r: Bits64, values: seq<int>)
    requires b.len <= 63 && n0 + b.len == |s| && Content(b) == s[n0..]
    ensures r.bufa == b.bufa && r.bufb == b.bufb
    ensures var t := Signs(given, 0, s, n0);
            && (failed <==> t.Need?)
            && (failed ==> r.len == 0)
            && (!failed ==> n0 <= t.n <= |s| && r.len == |s| - t.n && Content(r) == s[t.n..] && values == t.values)
  {
    hide Content;
    r, values, failed := b, given, false;
    var i := 0;
    ghost var n: nat := n0;
    while i < |values|
      invariant 0 <= i <= |values| == |given| && n0 <= n <= |s| && r.len == |s| - n && Content(r) == s[n..]
      invariant r.bufa == b.bufa && r.bufb == b.bufb
      invariant Signs(given, 0, s, n0) == Signs(values, i, s, n)
    {
      if values[i] != 0 {
        var bit;
        failed, bit, r := Get1Bit(r);
        if failed { return; }
        assert s[n..][1..] == s[n + 1..];
        if bit { values := values[i := -values[i]]; }
        n := n + 1;
      }
      i := i + 1;
    }
  }

  /** The loop over the ones of an escape prefix. */
  method PrefixCode(b: Bits64, ghost s: seq<bool>, ghost n0: nat) returns (failed: bool, i: nat, r: Bits64)
    requires b.len <= 63 && n0 + b.len == |s| && Content(b) == s[n0..]
    ensures r.bufa == b.bufa && r.bufb == b.bufb
    ensures var p := Prefix(s, n0, 4);
            && (failed <==> !p.0)
            && (failed ==> r.len == 0)
            && (!failed ==> i == p.2 && n0 <= p.1 <= |s| && r.len == |s| - p.1 && Content(r) == s[p.1..])
  {
    hide Content, Prefix;
    r, failed, i := b, false, 4;
    ghost var n: nat := n0;
    var bit := true;
    while bit
      invariant n0 <= n <= |s| && r.len == |s| - n && Content(r) == s[n..] && r.bufa == b.bufa && r.bufb == b.bufb
      invariant Prefix(s, n0, 4) == if bit then Prefix(s, n, i) else (true, n, i)
      decreases bit, |s| - n
    {
      PrefixStep(s, n, i);
      failed, bit, r := Get1Bit(r);
      if failed { return; }
      assert s[n..][1..] == s[n + 1..];
      n := n + 1;
      if bit { i := i + 1; }
    }
  }

  method EscapeCode(given: seq<int>, k: nat, b: Bits64, ghost s: seq<bool>, ghost n0: nat)
    returns (failed: bool, r: Bits64, values: seq<int>)
    requires b.len <= 62 && n0 + b.len == |s| && Content(b) == s[n0..]
    ensures r.bufa == b.bufa && r.bufb == b.bufb
    ensures var t := EscapeOne(given, k, s, n0);
            && (failed <==> t.Need?)
            && (failed ==> r.len == 0)
            && (!failed ==> n0 <= t.n <= |s| && r.len == |s| - t.n && Content(r) == s[t.n..] && values == t.values)
  {
    hide Content, ShowBits, FlushBits, Prefix, Value, Power2, Peek;
    r, values, failed := b, given, false;
    if k < |values| && (values[k] == 16 || values[k] == -16) {
      var neg := values[k] < 0;
      var i;
      PrefixTakes(s, n0, 4);
      failed, i, r := PrefixCode(r, s, n0);
      if failed { return; }
      ghost var n := Prefix(s, n0, 4).1;
      FlushBitsIs(r, i);
      Kept(r, i);
      if i > r.len {
        r := FlushBits(r, i).1;
        failed := true;
        return;
      }
      var off := Shown(r, i, s, n);
      r := FlushBits(r, i).1;
      assert s[n..][i..] == s[n + i..];
      var j := off + Power2(i);
      values := values[k := Int16(if neg then -j else j)];
    }
  }

  /** `showbits_hcr` of bits that are there. */
  method Shown(b: Bits64, i: nat, ghost s: seq<bool>, ghost n: nat) returns (v: nat)
    requires b.len <= 63 && n + b.len == |s| && Content(b) == s[n..] && 1 <= i <= 32 && i <= b.len
    ensures v == Value(s[n..n + i])
  {
    hide Content, ShowBits;
    ShowBitsIs(b, i);
    ValueZeros(32 - i, Peek(s[n..], i));
    assert s[n..][..i] == s[n..n + i];
    v := Value(ShowBits(b, i));
  }

  lemma PrefixStep(s: seq<bool>, n: nat, i: nat)
    ensures Prefix(s, n, i)
         == if n >= |s| then (false, n, i) else if s[n] then Prefix(s, n + 1, i + 1) else (true, n + 1, i)
  {}

  /**
    `huffman_spectral_data_2`: -1, and nothing left, exactly when the bits held
    end inside the codeword; otherwise the codeword is taken from their front.
   */
  method SpectralData2(book: Book, b: Bits64) returns (ret: int, r: Bits64, values: seq<int>)
    requires WellFormed(book) && b.len <= 63
    ensures r.bufa == b.bufa && r.bufb == b.bufb
    ensures var d := Decode(book, Content(b));
            && (d.Need? ==> ret == -1 && r.len == 0)
            && (d.Got? ==> 1 <= d.n <= b.len && ret == r.len == b.len - d.n)
            && (d.Got? ==> Content(r) == Content(b)[d.n..] && values == d.values)
  {
    hide Content, LookUp, Walk, Signs, EscapeOne;
    ghost var s := Content(b);
    var failed;
    DecodeTakes(book, s);
    TableTakes(book, s);
    match book.table {
      case TwoStep(n, first, second) => failed, r, values := TwoStepCode(n, first, second, b);
      case Tree(nodes) => failed, r, values := TreeCode(nodes, b);
    }
    if failed { return -1, r, values; }
    if book.unsigned {
      failed, r, values := SignsCode(values, r, s, |s| - r.len);
      if failed { return -1, r, values; }
    }
    if book.escape {
      failed, r, values := EscapeCode(values, 0, r, s, |s| - r.len);
      if failed { return -1, r, values; }
      failed, r, values := EscapeCode(values, 1, r, s, |s| - r.len);
      if failed { return -1, r, values; }
      values := CheckLav(book.lav, values);
    }
    ret := r.len;
  }

  /* ---------- More bits do not change a decoded codeword ---------- */

  /** First-step indices that agree on the bits of a short codeword give the same entry. */
  ghost predicate ShortFree(n: nat, first: seq<First>, second: seq<Entry>) {
    forall p: seq<bool>, q: seq<bool> | |p| == n == |q| && ShortCode(first, second, p)
        && Agree(p, q, CodeBits(first, second, p)) ::
      FirstAt(first, p) == FirstAt(first, q)
  }

  /** Second-step indices that agree on the rest of a long codeword do too. */
  ghost predicate LongFree(n: nat, first: seq<First>, second: seq<Entry>) {
    forall c: nat, p: seq<bool>, q: seq<bool> | c < |first| && |p| == |q| == first[c].extra
                                            && Agree(p, q, BitsAt(first, second, c, Value(p)) - n) ::
      EntryAt(first, second, c, Value(p)) == EntryAt(first, second, c, Value(q))
  }

  ghost predicate PrefixFree(t: Table) {
    match t
    case Tree(_) => true
    case TwoStep(n, first, second) => ShortFree(n, first, second) && LongFree(n, first, second)
  }

  predicate ShortCode(first: seq<First>, second: seq<Entry>, p: seq<bool>) {
    Value(p) < |first| && first[Value(p)].extra == 0 && first[Value(p)].offset < |second|
  }

  function CodeBits(first: seq<First>, second: seq<Entry>, p: seq<bool>): nat {
    if ShortCode(first, second, p) then second[first[Value(p)].offset].bits else 0
  }

  function FirstAt(first: seq<First>, p: seq<bool>): First {
    if Value(p) < |first| then first[Value(p)] else First(0, 0)
  }

  function EntryAt(first: seq<First>, second: seq<Entry>, c: nat, e: nat): Entry {
    if c < |first| && first[c].offset + e < |second| then second[first[c].offset + e] else Entry(0, [])
  }

  /** The first `k` bits agree. */
  predicate Agree(p: seq<bool>, q: seq<bool>, k: int) {
    0 <= k <= |p| && k <= |q| && p[..k] == q[..k]
  }

  lemma {:induction false} WalkExtends(nodes: seq<Node>, o: nat, s: seq<bool>, t: seq<bool>, n: nat)
    requires n <= |s| && Walk(nodes, o, s, n).Got?
    ensures Walk(nodes, o, s + t, n) == Walk(nodes, o, s, n)
    decreases |nodes| - o
  {
    if o < |nodes| && nodes[o].Branch? {
      WalkExtends(nodes, o + (if s[n] then nodes[o].one else nodes[o].zero), s, t, n + 1);
    }
  }

  lemma {:induction false} SignsExtend(values: seq<int>, i: nat, s: seq<bool>, t: seq<bool>, n: nat)
    requires n <= |s| && Signs(values, i, s, n).Got?
    ensures Signs(values, i, s + t, n) == Signs(values, i, s, n)
    decreases |values| - i
  {
    if i < |values| {
      if values[i] == 0 {
        SignsExtend(values, i + 1, s, t, n);
      } else {
        SignsExtend(if s[n] then values[i := -values[i]] else values, i + 1, s, t, n + 1);
      }
    }
  }

  lemma {:induction false} PrefixExtends(s: seq<bool>, t: seq<bool>, n: nat, i: nat)
    requires n <= |s| && Prefix(s, n, i).0
    ensures Prefix(s + t, n, i) == Prefix(s, n, i)
    decreases |s| - n
  {
    if s[n] { PrefixExtends(s, t, n + 1, i + 1); }
  }

  lemma EscapeExtends(values: seq<int>, k: nat, s: seq<bool>, t: seq<bool>, n: nat)
    requires n <= |s| && EscapeOne(values, k, s, n).Got?
    ensures EscapeOne(values, k, s + t, n) == EscapeOne(values, k, s, n)
  {
    if k < |values| && (values[k] == 16 || values[k] == -16) {
      PrefixExtends(s, t, n, 4);
      var p := Prefix(s, n, 4);
      assert (s + t)[p.1..p.1 + p.2] == s[p.1..p.1 + p.2];
    }
  }

  lemma PeekAgrees(s: seq<bool>, t: seq<bool>, n: nat, k: nat)
    requires k <= n && k <= |s|
    ensures Agree(Peek(s, n), Peek(s + t, n), k)
  {}

  /** The two table accesses, bounds included. */
  ghost predicate Indexed(n: nat, first: seq<First>, second: seq<Entry>) {
    && |first| == Power2(n)
    && forall c | 0 <= c < |first| :: first[c].offset + Power2(first[c].extra) <= |second|
  }

  lemma ShortExtends(n: nat, first: seq<First>, second: seq<Entry>, s: seq<bool>, t: seq<bool>)
    requires Indexed(n, first, second) && ShortFree(n, first, second)
    requires FirstAt(first, Peek(s, n)).extra == 0 && CodeBits(first, second, Peek(s, n)) <= n
    requires LookUp(n, first, second, s).Got?
    ensures LookUp(n, first, second, s + t) == LookUp(n, first, second, s)
  {
    hide Value, Peek, Agree, Power2;
    var p, q := Peek(s, n), Peek(s + t, n);
    IndexBound(p);
    IndexBound(q);
    PeekAgrees(s, t, n, CodeBits(first, second, p));
    assert FirstAt(first, p) == FirstAt(first, q);
  }

  lemma LongExtends(n: nat, first: seq<First>, second: seq<Entry>, s: seq<bool>, t: seq<bool>)
    requires Indexed(n, first, second) && LongFree(n, first, second) && n <= |s|
    requires var f := FirstAt(first, Peek(s, n)); f.extra > 0
    requires forall e: nat | e < Power2(FirstAt(first, Peek(s, n)).extra) ::
               n <= BitsAt(first, second, Value(Peek(s, n)), e) <= n + FirstAt(first, Peek(s, n)).extra
    requires LookUp(n, first, second, s).Got?
    ensures LookUp(n, first, second, s + t) == LookUp(n, first, second, s)
  {
    hide Value, Peek, Agree, Power2;
    WholePeek(s, t, n);
    var c := Value(Peek(s, n));
    IndexBound(Peek(s, n));
    var x := first[c].extra;
    var u, v := Peek(s[n..], x), Peek((s + t)[n..], x);
    IndexBound(u);
    IndexBound(v);
    assert (s + t)[n..] == s[n..] + t;
    PeekAgrees(s[n..], t, x, BitsAt(first, second, c, Value(u)) - n);
    assert EntryAt(first, second, c, Value(u)) == EntryAt(first, second, c, Value(v));
  }

  lemma LookUpExtends(n: nat, first: seq<First>, second: seq<Entry>, s: seq<bool>, t: seq<bool>)
    requires WellFormed(Book(TwoStep(n, first, second), false, false, 0)) && PrefixFree(TwoStep(n, first, second))
    requires LookUp(n, first, second, s).Got?
    ensures LookUp(n, first, second, s + t) == LookUp(n, first, second, s)
  {
    hide Value, Peek, Agree, Power2, ShortFree, LongFree;
    IndexBound(Peek(s, n));
    if FirstAt(first, Peek(s, n)).extra == 0 {
      ShortExtends(n, first, second, s, t);
    } else {
      LongExtends(n, first, second, s, t);
    }
  }

  lemma WholePeek(s: seq<bool>, t: seq<bool>, n: nat)
    requires n <= |s|
    ensures Peek(s, n) == Peek(s + t, n)
  {}

  /** A codeword that was complete decodes the same whatever follows it. */
  lemma DecodeExtends(book: Book, s: seq<bool>, t: seq<bool>)
    requires WellFormed(book) && PrefixFree(book.table) && Decode(book, s).Got?
    ensures Decode(book, s + t) == Decode(book, s)
  {
    hide LookUp, Walk, Signs, EscapeOne;
    var r := TableStep(book.table, s);
    TableTakes(book, s);
    match book.table {
      case Tree(nodes) => WalkExtends(nodes, 0, s, t, 0);
      case TwoStep(n, first, second) => LookUpExtends(n, first, second, s, t);
    }
    if book.unsigned {
      SignsTake(r.values, 0, s, r.n);
      SignsExtend(r.values, 0, s, t, r.n);
    }
    var u := if book.unsigned then Signs(r.values, 0, s, r.n) else r;
    if book.escape {
      EscapeTakes(u.values, 0, s, u.n);
      EscapeExtends(u.values, 0, s, t, u.n);
      var v := EscapeOne(u.values, 0, s, u.n);
      EscapeExtends(v.values, 1, s, t, v.n);
    }
  }
}
