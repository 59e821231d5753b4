/** Reading undoes printing: every printable tree is read back whole from its text, whatever
    surrounds it, so the text determines the tree and no text is a prefix of another. */
module BencodeTheorems {
  import opened Metric
  import opened Peers
  import opened Bencode

  /** Trees the printer can express: 64-bit integers, keys without NUL, every string present. */
  ghost predicate Printable(n: BeNode)
  {
    match n
    case Str(_) => true
    case NullStr => false
    case Int(i) => LLONG_MIN <= i <= LLONG_MAX
    case List(l) => forall i :: 0 <= i < |l| ==> Printable(l[i])
    case Dict(d) => forall i :: 0 <= i < |d| ==> CStr(d[i].key) == d[i].key && Printable(d[i].val)
  }

  /** x stands in s at p. */
  ghost predicate Has(s: Bytes, p: nat, x: Bytes)
  {
    p + |x| <= |s| && forall i :: 0 <= i < |x| ==> s[p + i] == x[i]
  }

  lemma HasParts(s: Bytes, p: nat, x: Bytes, y: Bytes)
    requires Has(s, p, x + y)
    ensures Has(s, p, x) && Has(s, p + |x|, y)
  {
    forall i | 0 <= i < |x| ensures s[p + i] == x[i] {
      assert (x + y)[i] == x[i];
    }
    forall i | 0 <= i < |y| ensures s[p + |x| + i] == y[i] {
      assert (x + y)[|x| + i] == y[i];
    }
  }

  lemma HasFirst(s: Bytes, p: nat, x: Bytes)
    requires Has(s, p, x) && x != []
    ensures p < |s| && s[p] == x[0]
  {
    assert s[p + 0] == x[0];
  }

  // ---------------------------------------------------------------- numbers

  lemma {:induction false} DigitsEndAt(s: Bytes, p: nat, e: nat)
    requires p <= e <= |s| && (forall i :: p <= i < e ==> IsDigit(s[i])) && !IsDigit(At(s, e))
    ensures DigitsEnd(s, p) == e
    decreases e - p
  {
    if p == e {
    } else {
      DigitsEndAt(s, p + 1, e);
    }
  }

  lemma DecimalDigits(n: nat, s: Bytes, p: nat)
    requires Has(s, p, Decimal(n))
    ensures forall i :: p <= i < p + |Decimal(n)| ==> IsDigit(s[i])
  {
    var x := Decimal(n);
    assert forall i :: p <= i < p + |x| ==> s[i] == x[i - p];
  }

  lemma DigitsLast(s: Bytes, p: nat, e: nat, v: nat, c: nat)
    requires p <= e < |s| && (forall i :: p <= i < e + 1 ==> IsDigit(s[i]))
    requires DigitsValue(s, p, e) == v && s[e] == 48 + c
    ensures DigitsValue(s, p, e + 1) == 10 * v + c
  {
  }

  lemma {:induction false} DecimalValue(n: nat, s: Bytes, p: nat)
    requires Has(s, p, Decimal(n))
    ensures forall i :: p <= i < p + |Decimal(n)| ==> IsDigit(s[i])
    ensures DigitsValue(s, p, p + |Decimal(n)|) == n
  {
    DecimalDigits(n, s, p);
    var e := p + |Decimal(n)| - 1;
    if n < 10 {
      HasFirst(s, p, Decimal(n));
      DigitsLast(s, p, e, 0, n);
    } else {
      HasParts(s, p, Decimal(n / 10), [48 + n % 10]);
      DecimalValue(n / 10, s, p);
      HasFirst(s, e, [48 + n % 10]);
      DigitsLast(s, p, e, n / 10, n % 10);
    }
  }

  lemma NoSpaceToSkip(s: Bytes, p: nat)
    requires p < |s| && !IsSpace(s[p])
    ensures SkipSpace(s, p) == p
  {
  }

  /** strtoll reads back what was printed, and stops right after it. */
  lemma IntTextRead(i: int, s: Bytes, p: nat)
    requires LLONG_MIN <= i <= LLONG_MAX
    requires Has(s, p, IntText(i)) && !IsDigit(At(s, p + |IntText(i)|))
    ensures Strtoll(s, p) == (i, p + |IntText(i)|)
  {
    HasFirst(s, p, IntText(i));
    NoSpaceToSkip(s, p);
    if i < 0 {
      HasParts(s, p, [MINUS], Decimal(-i));
      DecimalValue(-i, s, p + 1);
      DigitsEndAt(s, p + 1, p + 1 + |Decimal(-i)|);
    } else {
      DecimalValue(i, s, p);
      DigitsEndAt(s, p, p + |Decimal(i)|);
    }
  }

  lemma StrTextRead(x: Bytes, s: Bytes, p: nat)
    requires Has(s, p, StrText(x)) && |s| <= LLONG_MAX
    ensures ReadStr(s, p) == (Some(x), p + |StrText(x)|)
  {
    var d := Decimal(|x|);
    HasParts(s, p, d + [COLON], x);
    HasParts(s, p, d, [COLON]);
    HasFirst(s, p + |d|, [COLON]);
    IntTextRead(|x|, s, p);
    var q := p + |d| + 1;
    assert s[q..q + |x|] == x;
  }

  // ---------------------------------------------------------------- trees

  /** The text of a bracketed node: its opening byte, its contents, the closing e. */
  lemma HasBracketed(s: Bytes, p: nat, open: Byte, x: Bytes)
    requires Has(s, p, [open] + x + [LOWER_E])
    ensures p < |s| && s[p] == open && Has(s, p + 1, x)
    ensures p + 1 + |x| < |s| && s[p + 1 + |x|] == LOWER_E
  {
    HasParts(s, p, [open] + x, [LOWER_E]);
    HasParts(s, p, [open], x);
    HasFirst(s, p, [open]);
    HasFirst(s, p + 1 + |x|, [LOWER_E]);
  }

  lemma HasItem(l: seq<BeNode>, i: nat, s: Bytes, p: nat)
    requires i < |l| && Has(s, p, EncAll(l[i..]))
    ensures Has(s, p, Enc(l[i])) && Has(s, p + |Enc(l[i])|, EncAll(l[i + 1..])) && At(s, p) != LOWER_E
    ensures |EncAll(l[i..])| == |Enc(l[i])| + |EncAll(l[i + 1..])|
  {
    EncAllNext(l, i);
    HasParts(s, p, Enc(l[i]), EncAll(l[i + 1..]));
    HasFirst(s, p, Enc(l[i]));
  }

  lemma HasPair(d: seq<Pair>, i: nat, s: Bytes, p: nat, key: Bytes, q: nat, r: nat)
    requires i < |d| && Has(s, p, EncPairs(d[i..]))
    requires key == CStr(d[i].key) && q == p + |StrText(key)| && r == q + |Enc(d[i].val)|
    ensures Has(s, p, StrText(key)) && Has(s, q, Enc(d[i].val)) && Has(s, r, EncPairs(d[i + 1..]))
    ensures At(s, p) != LOWER_E && p + |EncPairs(d[i..])| == r + |EncPairs(d[i + 1..])|
  {
    EncPairsNext(d, i);
    HasParts(s, p, EncPair(d[i]), EncPairs(d[i + 1..]));
    HasParts(s, p, StrText(key), Enc(d[i].val));
    HasFirst(s, p, StrText(key));
  }

  lemma PrefixNext<T>(s: seq<T>, i: nat)
    requires i < |s|
    ensures s[..i] + [s[i]] == s[..i + 1]
  {
  }

  lemma ReadListNext(s: Bytes, p: nat, acc: seq<BeNode>, n: BeNode, q: nat)
    requires p <= |s| && At(s, p) != LOWER_E && Read(s, p).0 == Some(n) && Read(s, p).1 == q
    ensures ReadList(s, p, acc) == ReadList(s, q, acc + [n])
  {
  }

  lemma ReadDictNext(s: Bytes, p: nat, acc: seq<Pair>, e: Pair, q: nat, r: nat)
    requires p <= |s| && At(s, p) != LOWER_E
    requires ReadStr(s, p).0 == Some(e.key) && ReadStr(s, p).1 == q
    requires q <= |s| && Read(s, q).0 == Some(e.val) && Read(s, q).1 == r
    ensures ReadDict(s, p, acc) == ReadDict(s, r, acc + [e])
  {
  }

  lemma ReadsList(s: Bytes, p: nat, r: (Option<BeNode>, nat))
    requires p < |s| && s[p] == LOWER_L && ReadList(s, p + 1, []) == r
    ensures Read(s, p) == r
  {
  }

  lemma ReadsDict(s: Bytes, p: nat, r: (Option<BeNode>, nat))
    requires p < |s| && s[p] == LOWER_D && ReadDict(s, p + 1, []) == r
    ensures Read(s, p) == r
  {
  }

  lemma ReadListEnd(s: Bytes, p: nat, l: seq<BeNode>)
    requires p < |s| && s[p] == LOWER_E
    ensures ReadList(s, p, l) == (Some(List(l)), p + 1)
  {
  }

  lemma ReadDictEnd(s: Bytes, p: nat, d: seq<Pair>)
    requires p < |s| && s[p] == LOWER_E
    ensures ReadDict(s, p, d) == (Some(Dict(d)), p + 1)
  {
  }

  /** The tree n reads as printed at p. */
  ghost predicate ReadsBack(n: BeNode, s: Bytes, p: nat)
  {
    p <= |s| && Read(s, p).0 == Some(n) && Read(s, p).1 == p + |Enc(n)|
  }

  ghost predicate Printed(n: BeNode, s: Bytes, p: nat)
  {
    Printable(n) && Has(s, p, Enc(n)) && |s| <= LLONG_MAX
  }

  lemma ReadsStr(s: Bytes, p: nat, x: Bytes, q: nat)
    requires p < |s| && IsDigit(s[p]) && ReadStr(s, p) == (Some(x), q)
    ensures Read(s, p) == (Some(Str(x)), q)
  {
  }

  lemma ReadsInt(s: Bytes, p: nat, i: int, q: nat)
    requires p < |s| && s[p] == LOWER_I && Strtoll(s, p + 1) == (i, q) && q < |s| && s[q] == LOWER_E
    ensures Read(s, p) == (Some(Int(i)), q + 1)
  {
  }

  lemma StrRead(n: BeNode, s: Bytes, p: nat)
    requires n.Str? && Printed(n, s, p)
    ensures ReadsBack(n, s, p)
  {
    var d := Decimal(|n.s|);
    StrTextRead(n.s, s, p);
    HasParts(s, p, d + [COLON], n.s);
    HasParts(s, p, d, [COLON]);
    DecimalValue(|n.s|, s, p);
    ReadsStr(s, p, n.s, p + |StrText(n.s)|);
  }

  lemma IntRead(n: BeNode, s: Bytes, p: nat)
    requires n.Int? && Printed(n, s, p)
    ensures ReadsBack(n, s, p)
  {
    var q := p + 1 + |IntText(n.i)|;
    BracketedInt(n.i, s, p, q);
    ReadsInt(s, p, n.i, q);
  }

  lemma BracketedInt(i: int, s: Bytes, p: nat, q: nat)
    requires LLONG_MIN <= i <= LLONG_MAX && q == p + 1 + |IntText(i)|
    requires Has(s, p, [LOWER_I] + IntText(i) + [LOWER_E])
    ensures p < q < |s| && s[p] == LOWER_I && s[q] == LOWER_E && Strtoll(s, p + 1) == (i, q)
  {
    HasBracketed(s, p, LOWER_I, IntText(i));
    IntTextRead(i, s, p + 1);
  }

  /** A printed tree is read back as it was, consuming exactly its text. */
  lemma {:induction false} RoundTrip(n: BeNode, s: Bytes, p: nat)
    requires Printed(n, s, p)
    ensures ReadsBack(n, s, p)
    decreases n, 1
  {
    match n
    case Str(_) => StrRead(n, s, p);
    case Int(_) => IntRead(n, s, p);
    case List(_) => RoundTripList(n, s, p);
    case Dict(_) => RoundTripDict(n, s, p);
  }

  lemma {:induction false} RoundTripList(n: BeNode, s: Bytes, p: nat)
    requires n.List? && Printed(n, s, p)
    ensures ReadsBack(n, s, p)
    decreases n, 0, |n.l| + 1
  {
    var l := n.l;
    assert |Enc(n)| == |EncAll(l)| + 2;
    HasBracketed(s, p, LOWER_L, EncAll(l));
    assert l[0..] == l && l[..0] == [];
    RoundTripItems(n, 0, s, p + 1, p + 1 + |EncAll(l)|);
    ReadsList(s, p, (Some(n), p + |Enc(n)|));
  }

  lemma {:induction false} RoundTripDict(n: BeNode, s: Bytes, p: nat)
    requires n.Dict? && Printed(n, s, p)
    ensures ReadsBack(n, s, p)
    decreases n, 0, |n.d| + 1
  {
    var d := n.d;
    assert |Enc(n)| == |EncPairs(d)| + 2;
    HasBracketed(s, p, LOWER_D, EncPairs(d));
    assert d[0..] == d && d[..0] == [];
    RoundTripPairs(n, 0, s, p + 1, p + 1 + |EncPairs(d)|);
    ReadsDict(s, p, (Some(n), p + |Enc(n)|));
  }

  lemma ItemPrinted(n: BeNode, i: nat, s: Bytes, p: nat, q: nat, e: nat)
    requires n.List? && Printable(n) && i < |n.l| && |s| <= LLONG_MAX
    requires Has(s, p, EncAll(n.l[i..])) && e == p + |EncAll(n.l[i..])| && q == p + |Enc(n.l[i])|
    ensures Printed(n.l[i], s, p) && At(s, p) != LOWER_E
    ensures Has(s, q, EncAll(n.l[i + 1..])) && e == q + |EncAll(n.l[i + 1..])|
  {
    HasItem(n.l, i, s, p);
  }

  /** One more item in front of what is read as the rest. */
  lemma ItemRead(n: BeNode, i: nat, s: Bytes, p: nat, q: nat, e: nat)
    requires n.List? && i < |n.l| && p <= |s| && At(s, p) != LOWER_E
    requires Read(s, p).0 == Some(n.l[i]) && Read(s, p).1 == q
    requires ReadList(s, q, n.l[..i + 1]) == (Some(n), e + 1)
    ensures ReadList(s, p, n.l[..i]) == (Some(n), e + 1)
  {
    PrefixNext(n.l, i);
    ReadListNext(s, p, n.l[..i], n.l[i], q);
  }

  lemma PairRead(n: BeNode, i: nat, s: Bytes, p: nat, q: nat, r: nat, e: nat)
    requires n.Dict? && i < |n.d| && p <= |s| && At(s, p) != LOWER_E
    requires ReadStr(s, p).0 == Some(n.d[i].key) && ReadStr(s, p).1 == q
    requires q <= |s| && Read(s, q).0 == Some(n.d[i].val) && Read(s, q).1 == r
    requires ReadDict(s, r, n.d[..i + 1]) == (Some(n), e + 1)
    ensures ReadDict(s, p, n.d[..i]) == (Some(n), e + 1)
  {
    PrefixNext(n.d, i);
    ReadDictNext(s, p, n.d[..i], n.d[i], q, r);
  }

  lemma {:induction false} RoundTripItems(n: BeNode, i: nat, s: Bytes, p: nat, e: nat)
    requires n.List? && Printable(n) && i <= |n.l| && |s| <= LLONG_MAX
    requires Has(s, p, EncAll(n.l[i..])) && e == p + |EncAll(n.l[i..])| && e < |s| && s[e] == LOWER_E
    ensures ReadList(s, p, n.l[..i]) == (Some(n), e + 1)
    decreases n, 0, |n.l| - i
  {
    var l := n.l;
    if i == |l| {
      assert l[..i] == l;
      ReadListEnd(s, p, l);
    } else {
      var q := p + |Enc(l[i])|;
      ItemPrinted(n, i, s, p, q, e);
      RoundTrip(l[i], s, p);
      RoundTripItems(n, i + 1, s, q, e);
      ItemRead(n, i, s, p, q, e);
    }
  }

  lemma {:induction false} RoundTripPairs(n: BeNode, i: nat, s: Bytes, p: nat, e: nat)
    requires n.Dict? && Printable(n) && i <= |n.d| && |s| <= LLONG_MAX
    requires Has(s, p, EncPairs(n.d[i..])) && e == p + |EncPairs(n.d[i..])| && e < |s| && s[e] == LOWER_E
    ensures ReadDict(s, p, n.d[..i]) == (Some(n), e + 1)
    decreases n, 0, |n.d| - i
  {
    var d := n.d;
    if i == |d| {
      assert d[..i] == d;
      ReadDictEnd(s, p, d);
    } else {
      var key, val := d[i].key, d[i].val;
      var q := p + |StrText(key)|;
      var r := q + |Enc(val)|;
      HasPair(d, i, s, p, key, q, r);
      StrTextRead(key, s, p);
      RoundTrip(val, s, q);
      RoundTripPairs(n, i + 1, s, r, e);
      PairRead(n, i, s, p, q, r, e);
    }
  }

  /** Reading undoes printing whatever follows the text. */
  lemma ReadAfterPrint(n: BeNode, suffix: Bytes)
    requires Printable(n) && |Enc(n) + suffix| <= LLONG_MAX
    ensures Read(Enc(n) + suffix, 0) == (Some(n), |Enc(n)|)
  {
    assert Has(Enc(n) + suffix, 0, Enc(n));
    RoundTrip(n, Enc(n) + suffix, 0);
  }

  /** The text determines the tree, and no tree's text is a proper prefix of another's. */
  lemma PrefixFree(a: BeNode, b: BeNode, x: Bytes, y: Bytes)
    requires Printable(a) && Printable(b) && Enc(a) + x == Enc(b) + y && |Enc(a) + x| <= LLONG_MAX
    ensures a == b && x == y
  {
    ReadAfterPrint(a, x);
    ReadAfterPrint(b, y);
    assert x == (Enc(a) + x)[|Enc(a)|..];
  }

  /** What be_encode leaves in a buffer, be_decoden turns back into the tree. */
  method EncodeThenDecode(n: BeNode, buf: array<Byte>) returns (ret: Option<BeNode>, loc: nat)
    requires Printable(n) && |Enc(n)| < buf.Length <= LLONG_MAX
    modifies buf
    ensures ret == Some(n) && loc == |Enc(n)|
  {
    loc := Encode(n, buf, 0, buf.Length);
    assert buf[..] == Enc(n) + buf[loc..];
    ReadAfterPrint(n, buf[loc..]);
    ret := DecodeN(buf[..]);
  }
}
