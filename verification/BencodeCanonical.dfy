/** When printing gives back what was read: exactly on canonical text. And when reading gives
    back what was printed: exactly on printable trees, every other tree coming back in its
    normal form. */
module BencodeCanonical {
  import opened Metric
  import opened Peers
  import opened Bencode
  import opened BencodeTheorems

  // ---------------------------------------------------------------- 64-bit trees

  /** Every integer in the tree fits 64 bits. */
  ghost predicate InRange(n: BeNode)
  {
    match n
    case Int(i) => LLONG_MIN <= i <= LLONG_MAX
    case List(l) => forall i :: 0 <= i < |l| ==> InRange(l[i])
    case Dict(d) => forall i :: 0 <= i < |d| ==> InRange(d[i].val)
    case _ => true
  }

  /** Every tree that is read is one. */
  lemma {:induction false} ReadInRange(s: Bytes, p: nat)
    requires p <= |s| && Read(s, p).0.Some?
    ensures InRange(Read(s, p).0.value)
    decreases |s| - p, 0
  {
    if s[p] == LOWER_L {
      ReadListInRange(s, p + 1, []);
    } else if s[p] == LOWER_D {
      ReadDictInRange(s, p + 1, []);
    }
  }

  lemma {:induction false} ReadListInRange(s: Bytes, p: nat, acc: seq<BeNode>)
    requires p <= |s| && ReadList(s, p, acc).0.Some? && forall i :: 0 <= i < |acc| ==> InRange(acc[i])
    ensures InRange(ReadList(s, p, acc).0.value)
    decreases |s| - p, 1
  {
    if At(s, p) == LOWER_E {
    } else {
      var (n, q) := Read(s, p);
      ReadInRange(s, p);
      ReadListInRange(s, q, acc + [n.value]);
    }
  }

  lemma {:induction false} ReadDictInRange(s: Bytes, p: nat, acc: seq<Pair>)
    requires p <= |s| && ReadDict(s, p, acc).0.Some? && forall i :: 0 <= i < |acc| ==> InRange(acc[i].val)
    ensures InRange(ReadDict(s, p, acc).0.value)
    decreases |s| - p, 1
  {
    if At(s, p) == LOWER_E {
    } else {
      var (k, q) := ReadStr(s, p);
      var (v, e) := Read(s, q);
      ReadInRange(s, q);
      ReadDictInRange(s, e, acc + [Pair(k.value, v.value)]);
    }
  }

  // ---------------------------------------------------------------- normal forms

  /** The tree as the printer sees it: a missing body is empty, and a key ends at its first NUL. */
  function Norm(n: BeNode): BeNode
  {
    match n
    case NullStr => Str([])
    case List(l) => List(NormAll(l))
    case Dict(d) => Dict(NormPairs(d))
    case _ => n
  }

  function NormAll(l: seq<BeNode>): (r: seq<BeNode>)
    ensures |r| == |l|
  {
    if l == [] then [] else [Norm(l[0])] + NormAll(l[1..])
  }

  function NormPairs(d: seq<Pair>): (r: seq<Pair>)
    ensures |r| == |d|
  {
    if d == [] then [] else [Pair(CStr(d[0].key), Norm(d[0].val))] + NormPairs(d[1..])
  }

  lemma {:induction false} NormAllAt(l: seq<BeNode>, i: nat)
    requires i < |l|
    ensures NormAll(l)[i] == Norm(l[i])
  {
    if i == 0 {
    } else {
      NormAllAt(l[1..], i - 1);
    }
  }

  lemma {:induction false} NormPairsAt(d: seq<Pair>, i: nat)
    requires i < |d|
    ensures NormPairs(d)[i] == Pair(CStr(d[i].key), Norm(d[i].val))
  {
    if i == 0 {
    } else {
      NormPairsAt(d[1..], i - 1);
    }
  }

  lemma CStrTwice(key: Bytes)
    ensures CStr(CStr(key)) == CStr(key)
  {
    CStrWhole(CStr(key));
  }

  /** The printer cannot tell a tree from its normal form. */
  lemma {:induction false} EncNorm(n: BeNode)
    ensures Enc(Norm(n)) == Enc(n)
  {
    match n
    case List(l) => EncNormAll(l);
    case Dict(d) => EncNormPairs(d);
    case _ =>
  }

  lemma {:induction false} EncNormAll(l: seq<BeNode>)
    ensures EncAll(NormAll(l)) == EncAll(l)
  {
    if l == [] {
    } else {
      EncNorm(l[0]);
      EncNormAll(l[1..]);
      assert NormAll(l)[1..] == NormAll(l[1..]);
    }
  }

  lemma {:induction false} EncNormPairs(d: seq<Pair>)
    ensures EncPairs(NormPairs(d)) == EncPairs(d)
  {
    if d == [] {
    } else {
      CStrTwice(d[0].key);
      EncNorm(d[0].val);
      EncNormPairs(d[1..]);
      assert NormPairs(d)[1..] == NormPairs(d[1..]);
    }
  }

  lemma {:induction false} NormPrintable(n: BeNode)
    requires InRange(n)
    ensures Printable(Norm(n))
  {
    match n
    case List(l) =>
      forall i | 0 <= i < |l| ensures Printable(NormAll(l)[i]) {
        NormAllAt(l, i);
        NormPrintable(l[i]);
      }
    case Dict(d) =>
      forall i | 0 <= i < |d|
        ensures CStr(NormPairs(d)[i].key) == NormPairs(d)[i].key && Printable(NormPairs(d)[i].val)
      {
        NormPairsAt(d, i);
        CStrTwice(d[i].key);
        NormPrintable(d[i].val);
      }
    case _ =>
  }

  lemma {:induction false} PrintableIsNormal(n: BeNode)
    requires Printable(n)
    ensures Norm(n) == n && InRange(n)
  {
    match n
    case List(l) =>
      forall i | 0 <= i < |l| ensures NormAll(l)[i] == l[i] && InRange(l[i]) {
        NormAllAt(l, i);
        PrintableIsNormal(l[i]);
      }
      assert NormAll(l) == l;
    case Dict(d) =>
      forall i | 0 <= i < |d| ensures NormPairs(d)[i] == d[i] && InRange(d[i].val) {
        NormPairsAt(d, i);
        PrintableIsNormal(d[i].val);
      }
      assert NormPairs(d) == d;
    case _ =>
  }

  /** What is read back from a printed 64-bit tree is its normal form. */
  lemma ReadsNorm(n: BeNode, suffix: Bytes)
    requires InRange(n) && |Enc(n) + suffix| <= LLONG_MAX
    ensures Read(Enc(n) + suffix, 0) == (Some(Norm(n)), |Enc(n)|)
  {
    EncNorm(n);
    NormPrintable(n);
    ReadAfterPrint(Norm(n), suffix);
  }

  /** So a 64-bit tree comes back as it was if and only if it is printable: no string without
      a body, and no NUL in a key. */
  lemma ReadBackIffPrintable(n: BeNode, suffix: Bytes)
    requires InRange(n) && |Enc(n) + suffix| <= LLONG_MAX
    ensures Read(Enc(n) + suffix, 0) == (Some(n), |Enc(n)|) <==> Printable(n)
  {
    ReadsNorm(n, suffix);
    if Printable(n) {
      PrintableIsNormal(n);
    } else {
      NormPrintable(n);
    }
  }

  // ---------------------------------------------------------------- canonical numbers

  /** A number as the printer writes it: no space, no plus, no leading zero, no minus zero, and
      within 64 bits. */
  predicate PlainNumber(s: Bytes, p: nat)
    requires p <= |s|
  {
    var b := if At(s, p) == MINUS then p + 1 else p;
    var e := DigitsEnd(s, b);
    && b < e
    && (s[b] == 48 ==> b == p && e == b + 1)
    && var v: int := DigitsValue(s, b, e);
       LLONG_MIN <= (if b > p then 0 - v else v) <= LLONG_MAX
  }

  lemma {:induction false} DigitsPositive(s: Bytes, b: nat, e: nat)
    requires b < e <= |s| && (forall i :: b <= i < e ==> IsDigit(s[i])) && s[b] != 48
    ensures DigitsValue(s, b, e) > 0
    decreases e
  {
    if e == b + 1 {
      assert DigitsValue(s, b, b) == 0;
    } else {
      DigitsPositive(s, b, e - 1);
    }
  }

  /** x is what stands in s from p to q. */
  ghost predicate Spans(s: Bytes, p: nat, q: nat, x: Bytes)
  {
    q == p + |x| && Has(s, p, x)
  }

  lemma SpanJoin(s: Bytes, p: nat, m: nat, q: nat, x: Bytes, y: Bytes)
    requires Spans(s, p, m, x) && Spans(s, m, q, y)
    ensures Spans(s, p, q, x + y)
  {
    forall i | 0 <= i < |x + y| ensures s[p + i] == (x + y)[i] {
      if i >= |x| {
        assert s[m + (i - |x|)] == y[i - |x|];
      }
    }
  }

  lemma SpanOne(s: Bytes, p: nat)
    requires p < |s|
    ensures Spans(s, p, p + 1, [s[p]])
  {
  }

  /** Digits without a leading zero are the decimal of their value. */
  lemma {:induction false} DecimalOfDigits(s: Bytes, b: nat, e: nat)
    requires b < e <= |s| && (forall i :: b <= i < e ==> IsDigit(s[i])) && (s[b] == 48 ==> e == b + 1)
    ensures Spans(s, b, e, Decimal(DigitsValue(s, b, e)))
    decreases e
  {
    SpanOne(s, e - 1);
    if e == b + 1 {
      assert DigitsValue(s, b, b) == 0;
    } else {
      DecimalOfDigits(s, b, e - 1);
      DigitsPositive(s, b, e - 1);
      SpanJoin(s, b, e - 1, e, Decimal(DigitsValue(s, b, e - 1)), [s[e - 1]]);
    }
  }

  lemma {:induction false} DecimalFirst(n: nat)
    ensures n > 0 ==> Decimal(n)[0] != 48
    ensures n == 0 ==> Decimal(n) == [48]
  {
    if n < 10 {
    } else {
      DecimalFirst(n / 10);
    }
  }

  lemma PlainReads(s: Bytes, p: nat, b: nat, e: nat, n: nat)
    requires p <= |s| && PlainNumber(s, p)
    requires b == (if At(s, p) == MINUS then p + 1 else p) && e == DigitsEnd(s, b) && n == DigitsValue(s, b, e)
    ensures Strtoll(s, p) == (if b > p then 0 - n else n, e)
  {
    NoSpaceToSkip(s, p);
  }

  lemma PlainPrints(s: Bytes, p: nat)
    requires p <= |s| && PlainNumber(s, p)
    ensures Spans(s, p, Strtoll(s, p).1, IntText(Strtoll(s, p).0))
  {
    var b := if At(s, p) == MINUS then p + 1 else p;
    var e := DigitsEnd(s, b);
    var n := DigitsValue(s, b, e);
    PlainReads(s, p, b, e, n);
    DecimalOfDigits(s, b, e);
    if b > p {
      DigitsPositive(s, b, e);
      SpanOne(s, p);
      SpanJoin(s, p, b, e, [MINUS], Decimal(n));
    }
  }

  lemma PlainIs(s: Bytes, p: nat, b: nat, e: nat, n: nat)
    requires p <= |s| && b == (if At(s, p) == MINUS then p + 1 else p) && b < e && DigitsEnd(s, b) == e
    requires DigitsValue(s, b, e) == n && (s[b] == 48 ==> b == p && e == b + 1)
    requires LLONG_MIN <= (if b > p then 0 - n else n) <= LLONG_MAX
    ensures PlainNumber(s, p)
  {
  }

  lemma PrintedMinus(n: nat, s: Bytes, p: nat)
    requires 0 < n <= -LLONG_MIN && Has(s, p, [MINUS] + Decimal(n)) && !IsDigit(At(s, p + 1 + |Decimal(n)|))
    ensures PlainNumber(s, p)
  {
    var e := p + 1 + |Decimal(n)|;
    HasParts(s, p, [MINUS], Decimal(n));
    HasFirst(s, p, [MINUS]);
    HasFirst(s, p + 1, Decimal(n));
    DecimalValue(n, s, p + 1);
    DecimalFirst(n);
    DigitsEndAt(s, p + 1, e);
    PlainIs(s, p, p + 1, e, n);
  }

  lemma PrintedPlus(n: nat, s: Bytes, p: nat)
    requires n <= LLONG_MAX && Has(s, p, Decimal(n)) && !IsDigit(At(s, p + |Decimal(n)|))
    ensures PlainNumber(s, p)
  {
    var e := p + |Decimal(n)|;
    HasFirst(s, p, Decimal(n));
    DecimalValue(n, s, p);
    DecimalFirst(n);
    DigitsEndAt(s, p, e);
    PlainIs(s, p, p, e, n);
  }

  /** A printed number is plain. */
  lemma PrintedPlain(i: int, s: Bytes, p: nat)
    requires LLONG_MIN <= i <= LLONG_MAX && Has(s, p, IntText(i)) && !IsDigit(At(s, p + |IntText(i)|))
    ensures PlainNumber(s, p)
  {
    if i < 0 {
      PrintedMinus(-i, s, p);
    } else {
      PrintedPlus(i, s, p);
    }
  }

  lemma AfterPrefix<T>(l: seq<T>, acc: seq<T>, x: T)
    requires acc + [x] <= l
    ensures acc <= l && l[|acc|..] == [x] + l[|acc + [x]|..]
  {
    assert l[|acc|] == (acc + [x])[|acc|] == x;
  }

  // ---------------------------------------------------------------- canonical text

  /** The text of the tree at p is as the printer writes trees: plain numbers, every body
      there, no NUL in a key. */
  predicate Canonical(s: Bytes, p: nat)
    requires p <= |s|
    decreases |s| - p, 0
  {
    if p == |s| then false
    else if s[p] == LOWER_L then CanonicalItems(s, p + 1)
    else if s[p] == LOWER_D then CanonicalEntries(s, p + 1)
    else if s[p] == LOWER_I then PlainNumber(s, p + 1)
    else IsDigit(s[p]) && CanonicalStr(s, p)
  }

  predicate CanonicalStr(s: Bytes, p: nat)
    requires p <= |s|
  {
    PlainNumber(s, p) && ReadStr(s, p).0.Some?
  }

  predicate CanonicalItems(s: Bytes, p: nat)
    requires p <= |s|
    decreases |s| - p, 1
  {
    At(s, p) == LOWER_E
    || (Read(s, p).0.Some? && Canonical(s, p) && CanonicalItems(s, Read(s, p).1))
  }

  predicate CanonicalEntries(s: Bytes, p: nat)
    requires p <= |s|
    decreases |s| - p, 1
  {
    At(s, p) == LOWER_E
    || (CanonicalStr(s, p) && NulFree(ReadStr(s, p).0.value)
        && var q := ReadStr(s, p).1;
           Read(s, q).0.Some? && Canonical(s, q) && CanonicalEntries(s, Read(s, q).1))
  }

  predicate NulFree(key: Bytes) {
    forall i :: 0 <= i < |key| ==> key[i] != 0
  }

  // ---------------------------------------------------------------- canonical text is printed text

  lemma BodyIsSlice(s: Bytes, p: nat, n: int, q: nat, x: Bytes, e: nat)
    requires p <= |s| && Strtoll(s, p) == (n, q) && ReadStr(s, p).0 == Some(x) && ReadStr(s, p).1 == e
    ensures n == |x| && q < |s| && s[q] == COLON && e == q + 1 + n && x == s[q + 1..e]
  {
  }

  lemma LengthSpans(s: Bytes, p: nat, n: nat, q: nat)
    requires p <= |s| && PlainNumber(s, p) && Strtoll(s, p) == (n, q)
    ensures Spans(s, p, q, Decimal(n))
  {
    PlainPrints(s, p);
  }

  lemma BodySpans(s: Bytes, q: nat, x: Bytes, e: nat)
    requires q < e <= |s| && s[q] == COLON && x == s[q + 1..e]
    ensures Spans(s, q, e, [COLON] + x)
  {
    SpanOne(s, q);
    SpansIsSlice(s, q + 1, e, x);
    SpanJoin(s, q, q + 1, e, [COLON], x);
  }

  lemma StrPrints(s: Bytes, p: nat)
    requires p <= |s| && CanonicalStr(s, p)
    ensures Spans(s, p, ReadStr(s, p).1, StrText(ReadStr(s, p).0.value))
  {
    var (n, q) := Strtoll(s, p);
    var (x, e) := ReadStr(s, p);
    BodyIsSlice(s, p, n, q, x.value, e);
    LengthSpans(s, p, n, q);
    BodySpans(s, q, x.value, e);
    SpanJoin(s, p, q, e, Decimal(n), [COLON] + x.value);
    Regroup(Decimal(n), [COLON], x.value);
  }

  lemma SpanFramed(s: Bytes, p: nat, m: nat, x: Bytes)
    requires p < m < |s| && Spans(s, p + 1, m, x)
    ensures Spans(s, p, m + 1, [s[p]] + x + [s[m]])
  {
    SpanOne(s, p);
    SpanOne(s, m);
    SpanJoin(s, p, p + 1, m, [s[p]], x);
    SpanJoin(s, p, m, m + 1, [s[p]] + x, [s[m]]);
  }

  lemma IntEnds(s: Bytes, p: nat, i: int, m: nat)
    requires p < |s| && s[p] == LOWER_I && Strtoll(s, p + 1) == (i, m) && Read(s, p).0.Some?
    ensures p < m < |s| && s[m] == LOWER_E && Read(s, p) == (Some(Int(i)), m + 1)
  {
  }

  lemma IntPrints(s: Bytes, p: nat)
    requires p < |s| && s[p] == LOWER_I && Read(s, p).0.Some? && PlainNumber(s, p + 1)
    ensures Spans(s, p, Read(s, p).1, Enc(Read(s, p).0.value))
  {
    var (i, m) := Strtoll(s, p + 1);
    IntEnds(s, p, i, m);
    PlainPrints(s, p + 1);
    SpanFramed(s, p, m, IntText(i));
  }

  lemma {:induction false} CanonicalPrints(s: Bytes, p: nat)
    requires p <= |s| && Read(s, p).0.Some? && Canonical(s, p)
    ensures Spans(s, p, Read(s, p).1, Enc(Read(s, p).0.value))
    decreases |s| - p, 0
  {
    if s[p] == LOWER_L {
      ItemsPrint(s, p + 1, []);
      ListPrints(s, p);
    } else if s[p] == LOWER_D {
      EntriesPrint(s, p + 1, []);
      DictPrints(s, p);
    } else if s[p] == LOWER_I {
      IntPrints(s, p);
    } else {
      StrPrints(s, p);
    }
  }

  /** The list holds acc, and what follows it prints, with the closing e, as what stands from p
      to q. */
  ghost predicate ItemsSpan(s: Bytes, p: nat, q: nat, n: BeNode, acc: seq<BeNode>)
  {
    n.List? && acc <= n.l && Spans(s, p, q, EncAll(n.l[|acc|..]) + [LOWER_E])
  }

  lemma ListPrints(s: Bytes, p: nat)
    requires p < |s| && s[p] == LOWER_L && ReadList(s, p + 1, []).0.Some?
    requires ItemsSpan(s, p + 1, ReadList(s, p + 1, []).1, ReadList(s, p + 1, []).0.value, [])
    ensures Spans(s, p, Read(s, p).1, Enc(Read(s, p).0.value))
  {
    var (r, q) := ReadList(s, p + 1, []);
    var l := r.value.l;
    assert l[0..] == l;
    SpanOne(s, p);
    SpanJoin(s, p, p + 1, q, [LOWER_L], EncAll(l) + [LOWER_E]);
    Regroup([LOWER_L], EncAll(l), [LOWER_E]);
  }

  lemma ItemsMore(s: Bytes, p: nat, m: nat, q: nat, n: BeNode, acc: seq<BeNode>, x: BeNode)
    requires Spans(s, p, m, Enc(x)) && ItemsSpan(s, m, q, n, acc + [x])
    ensures ItemsSpan(s, p, q, n, acc)
  {
    AfterPrefix(n.l, acc, x);
    var rest := n.l[|acc + [x]|..];
    assert ([x] + rest)[1..] == rest;
    SpanJoin(s, p, m, q, Enc(x), EncAll(rest) + [LOWER_E]);
    Regroup(Enc(x), EncAll(rest), [LOWER_E]);
  }

  lemma {:induction false} ItemsPrint(s: Bytes, p: nat, acc: seq<BeNode>)
    requires p <= |s| && ReadList(s, p, acc).0.Some? && CanonicalItems(s, p)
    ensures ItemsSpan(s, p, ReadList(s, p, acc).1, ReadList(s, p, acc).0.value, acc)
    decreases |s| - p, 1
  {
    if At(s, p) == LOWER_E {
      assert acc[|acc|..] == [];
      SpanOne(s, p);
    } else {
      var (n, m) := Read(s, p);
      CanonicalPrints(s, p);
      ItemsPrint(s, m, acc + [n.value]);
      var (r, q) := ReadList(s, m, acc + [n.value]);
      ItemsMore(s, p, m, q, r.value, acc, n.value);
    }
  }

  ghost predicate EntriesSpan(s: Bytes, p: nat, q: nat, n: BeNode, acc: seq<Pair>)
  {
    n.Dict? && acc <= n.d && Spans(s, p, q, EncPairs(n.d[|acc|..]) + [LOWER_E])
  }

  lemma DictPrints(s: Bytes, p: nat)
    requires p < |s| && s[p] == LOWER_D && ReadDict(s, p + 1, []).0.Some?
    requires EntriesSpan(s, p + 1, ReadDict(s, p + 1, []).1, ReadDict(s, p + 1, []).0.value, [])
    ensures Spans(s, p, Read(s, p).1, Enc(Read(s, p).0.value))
  {
    var (r, q) := ReadDict(s, p + 1, []);
    var d := r.value.d;
    assert d[0..] == d;
    SpanOne(s, p);
    SpanJoin(s, p, p + 1, q, [LOWER_D], EncPairs(d) + [LOWER_E]);
    Regroup([LOWER_D], EncPairs(d), [LOWER_E]);
  }

  lemma EntriesMore(s: Bytes, p: nat, m: nat, q: nat, n: BeNode, acc: seq<Pair>, x: Pair)
    requires Spans(s, p, m, EncPair(x)) && EntriesSpan(s, m, q, n, acc + [x])
    ensures EntriesSpan(s, p, q, n, acc)
  {
    AfterPrefix(n.d, acc, x);
    var rest := n.d[|acc + [x]|..];
    assert ([x] + rest)[1..] == rest;
    SpanJoin(s, p, m, q, EncPair(x), EncPairs(rest) + [LOWER_E]);
    Regroup(EncPair(x), EncPairs(rest), [LOWER_E]);
  }

  lemma {:induction false} EntriesPrint(s: Bytes, p: nat, acc: seq<Pair>)
    requires p <= |s| && ReadDict(s, p, acc).0.Some? && CanonicalEntries(s, p)
    ensures EntriesSpan(s, p, ReadDict(s, p, acc).1, ReadDict(s, p, acc).0.value, acc)
    decreases |s| - p, 1
  {
    if At(s, p) == LOWER_E {
      assert acc[|acc|..] == [];
      SpanOne(s, p);
    } else {
      var (k, m) := ReadStr(s, p);
      var (v, e) := Read(s, m);
      var pair := Pair(k.value, v.value);
      StrPrints(s, p);
      CStrWhole(k.value);
      CanonicalPrints(s, m);
      SpanJoin(s, p, m, e, StrText(k.value), Enc(v.value));
      EntriesPrint(s, e, acc + [pair]);
      var (r, q) := ReadDict(s, e, acc + [pair]);
      EntriesMore(s, p, e, q, r.value, acc, pair);
    }
  }

  // ---------------------------------------------------------------- printed text is canonical

  lemma PrintedStrCanonical(x: Bytes, s: Bytes, p: nat)
    requires Has(s, p, StrText(x)) && |s| <= LLONG_MAX
    ensures CanonicalStr(s, p) && ReadStr(s, p) == (Some(x), p + |StrText(x)|)
  {
    var d := Decimal(|x|);
    StrTextRead(x, s, p);
    HasParts(s, p, d + [COLON], x);
    HasParts(s, p, d, [COLON]);
    HasFirst(s, p + |d|, [COLON]);
    PrintedPlain(|x|, s, p);
  }

  lemma {:induction false} PrintedCanonical(n: BeNode, s: Bytes, p: nat)
    requires Printed(n, s, p)
    ensures Canonical(s, p)
    decreases n, 1
  {
    HasFirst(s, p, Enc(n));
    match n
    case Str(x) => PrintedStrCanonical(x, s, p);
    case Int(i) =>
      HasBracketed(s, p, LOWER_I, IntText(i));
      PrintedPlain(i, s, p + 1);
    case List(l) =>
      HasBracketed(s, p, LOWER_L, EncAll(l));
      assert l[0..] == l;
      PrintedItems(n, 0, s, p + 1, p + 1 + |EncAll(l)|);
    case Dict(d) =>
      HasBracketed(s, p, LOWER_D, EncPairs(d));
      assert d[0..] == d;
      PrintedEntries(n, 0, s, p + 1, p + 1 + |EncPairs(d)|);
  }

  lemma ItemsNext(s: Bytes, p: nat, q: nat)
    requires p <= |s| && Read(s, p).0.Some? && Read(s, p).1 == q && Canonical(s, p) && CanonicalItems(s, q)
    ensures CanonicalItems(s, p)
  {
  }

  lemma EntriesNext(s: Bytes, p: nat, q: nat, r: nat)
    requires p <= |s| && CanonicalStr(s, p) && NulFree(ReadStr(s, p).0.value) && ReadStr(s, p).1 == q
    requires Read(s, q).0.Some? && Read(s, q).1 == r && Canonical(s, q) && CanonicalEntries(s, r)
    ensures CanonicalEntries(s, p)
  {
  }

  /** One item of a list, and the rest. */
  lemma {:induction false} PrintedItem(n: BeNode, i: nat, s: Bytes, p: nat, q: nat, e: nat)
    requires n.List? && Printable(n) && i < |n.l| && |s| <= LLONG_MAX
    requires Has(s, p, EncAll(n.l[i..])) && e == p + |EncAll(n.l[i..])| && q == p + |Enc(n.l[i])|
    ensures Printed(n.l[i], s, p) && Read(s, p).0 == Some(n.l[i]) && Read(s, p).1 == q
    ensures Has(s, q, EncAll(n.l[i + 1..])) && e == q + |EncAll(n.l[i + 1..])|
  {
    ItemPrinted(n, i, s, p, q, e);
    RoundTrip(n.l[i], s, p);
  }

  lemma {:induction false} PrintedItems(n: BeNode, i: nat, s: Bytes, p: nat, e: nat)
    requires n.List? && Printable(n) && i <= |n.l| && |s| <= LLONG_MAX
    requires Has(s, p, EncAll(n.l[i..])) && e == p + |EncAll(n.l[i..])| && e < |s| && s[e] == LOWER_E
    ensures CanonicalItems(s, p)
    decreases n, 0, |n.l| - i
  {
    if i == |n.l| {
    } else {
      var q := p + |Enc(n.l[i])|;
      PrintedItem(n, i, s, p, q, e);
      PrintedCanonical(n.l[i], s, p);
      PrintedItems(n, i + 1, s, q, e);
      ItemsNext(s, p, q);
    }
  }

  lemma {:induction false} PrintedEntry(n: BeNode, i: nat, s: Bytes, p: nat, q: nat, r: nat)
    requires n.Dict? && Printable(n) && i < |n.d| && |s| <= LLONG_MAX && Has(s, p, EncPairs(n.d[i..]))
    requires q == p + |StrText(n.d[i].key)| && r == q + |Enc(n.d[i].val)|
    ensures CanonicalStr(s, p) && ReadStr(s, p).0 == Some(n.d[i].key) && ReadStr(s, p).1 == q
    ensures NulFree(n.d[i].key)
    ensures Printed(n.d[i].val, s, q) && ReadsBack(n.d[i].val, s, q)
    ensures Has(s, r, EncPairs(n.d[i + 1..])) && p + |EncPairs(n.d[i..])| == r + |EncPairs(n.d[i + 1..])|
  {
    HasPair(n.d, i, s, p, n.d[i].key, q, r);
    PrintedStrCanonical(n.d[i].key, s, p);
    RoundTrip(n.d[i].val, s, q);
  }

  lemma {:induction false} PrintedEntries(n: BeNode, i: nat, s: Bytes, p: nat, e: nat)
    requires n.Dict? && Printable(n) && i <= |n.d| && |s| <= LLONG_MAX
    requires Has(s, p, EncPairs(n.d[i..])) && e == p + |EncPairs(n.d[i..])| && e < |s| && s[e] == LOWER_E
    ensures CanonicalEntries(s, p)
    decreases n, 0, |n.d| - i
  {
    if i == |n.d| {
    } else {
      var q := p + |StrText(n.d[i].key)|;
      var r := q + |Enc(n.d[i].val)|;
      PrintedEntry(n, i, s, p, q, r);
      PrintedCanonical(n.d[i].val, s, q);
      PrintedEntries(n, i + 1, s, r, e);
      EntriesNext(s, p, q, r);
    }
  }

  // ---------------------------------------------------------------- the theorem

  lemma SpansIsSlice(s: Bytes, p: nat, q: nat, x: Bytes)
    requires p <= q <= |s|
    ensures Spans(s, p, q, x) <==> x == s[p..q]
  {
    if x == s[p..q] {
      forall i | 0 <= i < |x| ensures s[p + i] == x[i] {
        assert s[p..q][i] == s[p + i];
      }
    }
  }

  /** Printing a tree gives back the text it was read from if and only if that text is
      canonical. */
  lemma PrintsBackIffCanonical(s: Bytes, p: nat)
    requires p <= |s| <= LLONG_MAX && Read(s, p).0.Some?
    ensures Enc(Read(s, p).0.value) == s[p..Read(s, p).1] <==> Canonical(s, p)
  {
    var (r, q) := Read(s, p);
    SpansIsSlice(s, p, q, Enc(r.value));
    if Canonical(s, p) {
      CanonicalPrints(s, p);
    }
    if Spans(s, p, q, Enc(r.value)) {
      ReadInRange(s, p);
      NormPrintable(r.value);
      EncNorm(r.value);
      PrintedCanonical(Norm(r.value), s, p);
    }
  }

  /** Two texts that are read but not printed back: a body runs past the end and is lost, and a
      plus sign is dropped. */
  lemma NotPrintedBack()
    ensures Read([50, COLON, 120], 0) == (Some(NullStr), 1) && Enc(NullStr) == [48, COLON]
    ensures Read([LOWER_I, PLUS, 53, LOWER_E], 0) == (Some(Int(5)), 4) && Enc(Int(5)) == [LOWER_I, 53, LOWER_E]
  {
    var s: Bytes := [50, COLON, 120];
    assert DigitsEnd(s, 0) == 1;
    assert DigitsValue(s, 0, 0) == 0;
    var t: Bytes := [LOWER_I, PLUS, 53, LOWER_E];
    assert DigitsEnd(t, 2) == 3;
    assert DigitsValue(t, 2, 2) == 0;
  }
}
