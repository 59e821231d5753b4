/** Which texts the reader accepts, and what it makes of them: numbers as strtoll reads them,
    and trees by a grammar that follows the tree. */
module BencodeGrammar {
  import opened Metric
  import opened Peers
  import opened Bencode
  import opened BencodeTheorems

  // ---------------------------------------------------------------- numbers

  predicate Space(b: Byte) {
    b == 32 || 9 <= b <= 13
  }

  predicate Digit(b: Byte) {
    48 <= b <= 57
  }

  /** From p spaces, from a at most one sign, from b digits up to e, and no digit there. */
  ghost predicate NumberAt(s: Bytes, p: nat, a: nat, b: nat, e: nat)
  {
    && p <= a <= b < e <= |s|
    && (forall i :: p <= i < a ==> Space(s[i])) && !Space(s[a])
    && (b == a || (b == a + 1 && (s[a] == 43 || s[a] == 45)))
    && (forall i :: b <= i < e ==> 48 <= s[i] <= 57) && (e < |s| ==> !Digit(s[e]))
  }

  /** The number, with its sign, within 64 bits. */
  function NumberValue(s: Bytes, a: nat, b: nat, e: nat): int
    requires a <= b <= e <= |s| && forall i :: b <= i < e ==> 48 <= s[i] <= 57
  {
    var v: int := Digits(s, b, e);
    var x := if a < b && s[a] == 45 then -v else v;
    if x > 0x7FFF_FFFF_FFFF_FFFF then 0x7FFF_FFFF_FFFF_FFFF
    else if x < -0x8000_0000_0000_0000 then -0x8000_0000_0000_0000
    else x
  }

  function Digits(s: Bytes, b: nat, e: nat): nat
    requires b <= e <= |s| && forall i :: b <= i < e ==> 48 <= s[i] <= 57
    decreases e
  {
    if b == e then 0 else 10 * Digits(s, b, e - 1) + (s[e - 1] as int - 48)
  }

  lemma {:induction false} DigitsAre(s: Bytes, b: nat, e: nat)
    requires b <= e <= |s| && forall i :: b <= i < e ==> 48 <= s[i] <= 57
    ensures DigitsValue(s, b, e) == Digits(s, b, e)
    decreases e
  {
    if b == e {
    } else {
      DigitsAre(s, b, e - 1);
    }
  }

  lemma {:induction false} SpacesSkipped(s: Bytes, p: nat, a: nat)
    requires p <= a <= |s| && (forall i :: p <= i < a ==> Space(s[i])) && (a < |s| ==> !Space(s[a]))
    ensures SkipSpace(s, p) == a
    decreases a - p
  {
    if p == a {
    } else {
      SpacesSkipped(s, p + 1, a);
    }
  }

  /** A number is read with its value, up to its end; */
  lemma NumberRead(s: Bytes, p: nat, a: nat, b: nat, e: nat)
    requires NumberAt(s, p, a, b, e)
    ensures Strtoll(s, p) == (NumberValue(s, a, b, e), e)
  {
    SpacesSkipped(s, p, a);
    DigitsEndAt(s, b, e);
    DigitsAre(s, b, e);
  }

  /** where there is none, the reader stays and reads zero. */
  lemma NumberMissing(s: Bytes, p: nat)
    requires p <= |s| && forall a, b, e :: !NumberAt(s, p, a, b, e)
    ensures Strtoll(s, p) == (0, p)
  {
    var a := SkipSpace(s, p);
    SkipsOnly(s, p);
    var b := if At(s, a) == 45 || At(s, a) == 43 then a + 1 else a;
    var e := DigitsEnd(s, b);
    DigitsOnly(s, b);
    if e > b {
      assert NumberAt(s, p, a, b, e);
    }
  }

  lemma {:induction false} SkipsOnly(s: Bytes, p: nat)
    requires p <= |s|
    ensures var a := SkipSpace(s, p);
            p <= a <= |s| && (forall i :: p <= i < a ==> Space(s[i])) && (a < |s| ==> !Space(s[a]))
    decreases |s| - p
  {
    if p < |s| && IsSpace(s[p]) {
      SkipsOnly(s, p + 1);
    }
  }

  lemma {:induction false} DigitsOnly(s: Bytes, b: nat)
    requires b <= |s|
    ensures var e := DigitsEnd(s, b);
            b <= e <= |s| && (forall i :: b <= i < e ==> 48 <= s[i] <= 57) && (e < |s| ==> !Digit(s[e]))
    decreases |s| - b
  {
    if b < |s| && IsDigit(s[b]) {
      DigitsOnly(s, b + 1);
    }
  }

  // ---------------------------------------------------------------- the grammar

  /** A length, a colon, and that many bytes. */
  ghost predicate StringAt(s: Bytes, p: nat, x: Bytes, q: nat)
    requires p <= |s|
  {
    var (n, m) := Strtoll(s, p);
    n == |x| && m < |s| && s[m] == 58 && q == m + 1 + |x| <= |s| && x == s[m + 1..q]
  }

  /** The text from p to q is read as the tree. */
  ghost predicate TreeAt(n: BeNode, s: Bytes, p: nat, q: nat)
    decreases n, 0
  {
    && p < |s|
    && match n
       case Int(i) =>
         s[p] == 105 && var (v, m) := Strtoll(s, p + 1); v == i && m < |s| && s[m] == 101 && q == m + 1
       case Str(x) => Digit(s[p]) && StringAt(s, p, x, q)
       case NullStr => Digit(s[p]) && q == Strtoll(s, p).1 && forall x, e :: !StringAt(s, p, x, e)
       case List(l) => s[p] == 108 && 0 < q <= |s| && s[q - 1] == 101 && ItemsAt(l, s, p + 1, q - 1)
       case Dict(d) => s[p] == 100 && 0 < q <= |s| && s[q - 1] == 101 && EntriesAt(d, s, p + 1, q - 1)
  }

  ghost predicate ItemsAt(l: seq<BeNode>, s: Bytes, p: nat, q: nat)
    decreases l, 1
  {
    if l == [] then p == q else exists m :: p < m && TreeAt(l[0], s, p, m) && ItemsAt(l[1..], s, m, q)
  }

  ghost predicate EntriesAt(d: seq<Pair>, s: Bytes, p: nat, q: nat)
    decreases d, 1
  {
    if d == [] then p == q
    else p <= |s| && exists k, m :: p <= k && StringAt(s, p, d[0].key, k) && TreeAt(d[0].val, s, k, m)
                                    && EntriesAt(d[1..], s, m, q)
  }

  // ---------------------------------------------------------------- what is read is in the grammar

  lemma StrReadAt(s: Bytes, p: nat)
    requires p <= |s|
    ensures var (x, q) := ReadStr(s, p);
            if x.Some? then StringAt(s, p, x.value, q)
            else q == Strtoll(s, p).1 && forall y, e :: !StringAt(s, p, y, e)
  {
  }

  lemma StrAtRead(s: Bytes, p: nat, x: Bytes, q: nat)
    requires p <= |s| && StringAt(s, p, x, q)
    ensures ReadStr(s, p).0 == Some(x) && ReadStr(s, p).1 == q
  {
  }

  lemma {:induction false} ReadInGrammar(s: Bytes, p: nat)
    requires p <= |s| && Read(s, p).0.Some?
    ensures TreeAt(Read(s, p).0.value, s, p, Read(s, p).1)
    decreases |s| - p, 0
  {
    if s[p] == LOWER_L {
      ReadItems(s, p + 1, []);
    } else if s[p] == LOWER_D {
      ReadEntries(s, p + 1, []);
    } else if s[p] == LOWER_I {
    } else {
      StrReadAt(s, p);
    }
  }

  lemma FirstItem(l: seq<BeNode>, acc: seq<BeNode>, x: BeNode, s: Bytes, p: nat, m: nat, q: nat)
    requires acc + [x] <= l && p < m && TreeAt(x, s, p, m) && ItemsAt(l[|acc| + 1..], s, m, q)
    ensures acc <= l && ItemsAt(l[|acc|..], s, p, q)
  {
    assert l[|acc|] == (acc + [x])[|acc|] == x;
    assert l[|acc|..][1..] == l[|acc| + 1..];
  }

  /** The list has acc in front, and the rest of it stands from p to the closing byte. */
  ghost predicate ItemsFrom(n: BeNode, acc: seq<BeNode>, s: Bytes, p: nat, q: nat)
  {
    n.List? && acc <= n.l && 0 < q <= |s| && s[q - 1] == 101 && ItemsAt(n.l[|acc|..], s, p, q - 1)
  }

  lemma ItemsMore(n: BeNode, acc: seq<BeNode>, x: BeNode, s: Bytes, p: nat, m: nat, q: nat)
    requires ItemsFrom(n, acc + [x], s, m, q) && p < m && TreeAt(x, s, p, m)
    ensures ItemsFrom(n, acc, s, p, q)
  {
    FirstItem(n.l, acc, x, s, p, m, q - 1);
  }

  lemma {:induction false} ReadItems(s: Bytes, p: nat, acc: seq<BeNode>)
    requires p <= |s| && ReadList(s, p, acc).0.Some?
    ensures ItemsFrom(ReadList(s, p, acc).0.value, acc, s, p, ReadList(s, p, acc).1)
    decreases |s| - p, 1
  {
    if At(s, p) == LOWER_E {
      assert acc[|acc|..] == [];
    } else {
      var (n, m) := Read(s, p);
      ReadInGrammar(s, p);
      ReadItems(s, m, acc + [n.value]);
      var (r, q) := ReadList(s, m, acc + [n.value]);
      ItemsMore(r.value, acc, n.value, s, p, m, q);
    }
  }

  lemma FirstEntry(d: seq<Pair>, acc: seq<Pair>, x: Pair, s: Bytes, p: nat, k: nat, m: nat, q: nat)
    requires acc + [x] <= d && p <= k && p <= |s| && StringAt(s, p, x.key, k) && TreeAt(x.val, s, k, m)
    requires EntriesAt(d[|acc| + 1..], s, m, q)
    ensures acc <= d && EntriesAt(d[|acc|..], s, p, q)
  {
    assert d[|acc|] == (acc + [x])[|acc|] == x;
    assert d[|acc|..][1..] == d[|acc| + 1..];
  }

  ghost predicate EntriesFrom(n: BeNode, acc: seq<Pair>, s: Bytes, p: nat, q: nat)
  {
    n.Dict? && acc <= n.d && 0 < q <= |s| && s[q - 1] == 101 && EntriesAt(n.d[|acc|..], s, p, q - 1)
  }

  lemma EntriesMore(n: BeNode, acc: seq<Pair>, x: Pair, s: Bytes, p: nat, k: nat, m: nat, q: nat)
    requires EntriesFrom(n, acc + [x], s, m, q)
    requires p <= k && p <= |s| && StringAt(s, p, x.key, k) && TreeAt(x.val, s, k, m)
    ensures EntriesFrom(n, acc, s, p, q)
  {
    FirstEntry(n.d, acc, x, s, p, k, m, q - 1);
  }

  lemma {:induction false} ReadEntries(s: Bytes, p: nat, acc: seq<Pair>)
    requires p <= |s| && ReadDict(s, p, acc).0.Some?
    ensures EntriesFrom(ReadDict(s, p, acc).0.value, acc, s, p, ReadDict(s, p, acc).1)
    decreases |s| - p, 1
  {
    if At(s, p) == LOWER_E {
      assert acc[|acc|..] == [];
    } else {
      var (k, m) := ReadStr(s, p);
      var (v, e) := Read(s, m);
      var x := Pair(k.value, v.value);
      StrReadAt(s, p);
      ReadInGrammar(s, m);
      ReadEntries(s, e, acc + [x]);
      var (r, q) := ReadDict(s, e, acc + [x]);
      EntriesMore(r.value, acc, x, s, p, m, e, q);
    }
  }

  // ---------------------------------------------------------------- what is in the grammar is read

  lemma NotClosing(s: Bytes, p: nat)
    requires p < |s| && s[p] == 101
    ensures Strtoll(s, p) == (0, p) && forall x, q :: !StringAt(s, p, x, q)
  {
    assert DigitsEnd(s, p) == p;
  }

  lemma {:induction false} GrammarRead(n: BeNode, s: Bytes, p: nat, q: nat)
    requires TreeAt(n, s, p, q)
    ensures p <= |s| && Read(s, p).0 == Some(n) && Read(s, p).1 == q && At(s, p) != 101
    decreases n, 2
  {
    match n
    case Int(_) => LeafRead(n, s, p, q);
    case Str(_) => LeafRead(n, s, p, q);
    case NullStr => LeafRead(n, s, p, q);
    case List(l) =>
      assert l[0..] == l && l[..0] == [];
      GrammarItems(n, 0, s, p + 1, q - 1);
      ReadsList(s, p, (Some(n), q));
    case Dict(d) =>
      assert d[0..] == d && d[..0] == [];
      GrammarEntries(n, 0, s, p + 1, q - 1);
      ReadsDict(s, p, (Some(n), q));
  }

  lemma LeafRead(n: BeNode, s: Bytes, p: nat, q: nat)
    requires TreeAt(n, s, p, q) && !n.List? && !n.Dict?
    ensures p <= |s| && Read(s, p).0 == Some(n) && Read(s, p).1 == q && At(s, p) != 101
  {
    if n.Str? {
      StrAtRead(s, p, n.s, q);
    } else if n.NullStr? {
      StrReadAt(s, p);
    }
  }

  lemma {:induction false} GrammarItems(n: BeNode, i: nat, s: Bytes, p: nat, q: nat)
    requires n.List? && i <= |n.l| && q < |s| && s[q] == 101 && ItemsAt(n.l[i..], s, p, q)
    ensures p <= |s| && ReadList(s, p, n.l[..i]) == (Some(n), q + 1)
    decreases n, 1, |n.l| - i
  {
    var l := n.l;
    if i == |l| {
      assert l[..i] == l;
      ReadListEnd(s, p, l);
    } else {
      assert l[i..][0] == l[i] && l[i..][1..] == l[i + 1..];
      var m :| p < m && TreeAt(l[i], s, p, m) && ItemsAt(l[i + 1..], s, m, q);
      GrammarRead(l[i], s, p, m);
      GrammarItems(n, i + 1, s, m, q);
      ItemRead(n, i, s, p, m, q);
    }
  }

  lemma {:induction false} GrammarEntries(n: BeNode, i: nat, s: Bytes, p: nat, q: nat)
    requires n.Dict? && i <= |n.d| && q < |s| && s[q] == 101 && EntriesAt(n.d[i..], s, p, q)
    ensures p <= |s| && ReadDict(s, p, n.d[..i]) == (Some(n), q + 1)
    decreases n, 1, |n.d| - i
  {
    var d := n.d;
    if i == |d| {
      assert d[..i] == d;
      ReadDictEnd(s, p, d);
    } else {
      assert d[i..][0] == d[i] && d[i..][1..] == d[i + 1..];
      var k, m :| p <= k && StringAt(s, p, d[i].key, k) && TreeAt(d[i].val, s, k, m) && EntriesAt(d[i + 1..], s, m, q);
      if p < |s| && s[p] == 101 {
        NotClosing(s, p);
      }
      StrAtRead(s, p, d[i].key, k);
      GrammarRead(d[i].val, s, k, m);
      GrammarEntries(n, i + 1, s, m, q);
      PairRead(n, i, s, p, k, m, q);
    }
  }

  /** A tree is read at p, up to q, if and only if the grammar has it there. */
  lemma ReadIff(s: Bytes, p: nat, n: BeNode, q: nat)
    requires p <= |s|
    ensures Read(s, p).0 == Some(n) && Read(s, p).1 == q <==> TreeAt(n, s, p, q)
  {
    if TreeAt(n, s, p, q) {
      GrammarRead(n, s, p, q);
    }
    if Read(s, p).0 == Some(n) && Read(s, p).1 == q {
      ReadInGrammar(s, p);
    }
  }
}
