/** The bencoding printer and parser, as the library writes and reads it: dictionary keys in
    the order they were added, integers as C prints and strtoll reads them, and a string whose
    body cannot be read becoming a string node without a body. */
module Bencode {
  import opened Metric
  import opened Peers

  datatype BeNode =
    | Str(s: Bytes)
    | NullStr
    | Int(i: int)
    | List(l: seq<BeNode>)
    | Dict(d: seq<Pair>)

  datatype Pair = Pair(key: Bytes, val: BeNode)

  const LLONG_MAX := 0x7FFF_FFFF_FFFF_FFFF
  const LLONG_MIN := -0x8000_0000_0000_0000

  const COLON: Byte := 58
  const MINUS: Byte := 45
  const PLUS: Byte := 43
  const LOWER_D: Byte := 100
  const LOWER_E: Byte := 101
  const LOWER_I: Byte := 105
  const LOWER_L: Byte := 108

  predicate IsDigit(b: Byte) {
    48 <= b <= 57
  }

  predicate IsSpace(b: Byte) {
    b == 32 || 9 <= b <= 13
  }

  // ---------------------------------------------------------------- printing

  function Decimal(n: nat): (r: Bytes)
    ensures r != [] && forall i :: 0 <= i < |r| ==> IsDigit(r[i])
  {
    if n < 10 then [48 + n] else Decimal(n / 10) + [48 + n % 10]
  }

  function IntText(i: int): (r: Bytes)
    ensures r != []
    ensures forall k :: 0 <= k < |r| ==> IsDigit(r[k]) || r[k] == MINUS
  {
    if i < 0 then [MINUS] + Decimal(-i) else Decimal(i)
  }

  /** A key up to its first NUL, which is all the printer sees of it. */
  function CStr(key: Bytes): (r: Bytes)
    ensures |r| <= |key| && r == key[..|r|]
    ensures forall i :: 0 <= i < |r| ==> r[i] != 0
    ensures |r| < |key| ==> key[|r|] == 0
  {
    if key == [] || key[0] == 0 then [] else [key[0]] + CStr(key[1..])
  }

  function StrText(s: Bytes): (r: Bytes)
    ensures r != [] && IsDigit(r[0])
  {
    Decimal(|s|) + [COLON] + s
  }

  function Enc(n: BeNode): (r: Bytes)
    ensures r != [] && r[0] != LOWER_E
  {
    match n
    case Str(s) => StrText(s)
    case NullStr => StrText([])
    case Int(i) => [LOWER_I] + IntText(i) + [LOWER_E]
    case List(l) => [LOWER_L] + EncAll(l) + [LOWER_E]
    case Dict(d) => [LOWER_D] + EncPairs(d) + [LOWER_E]
  }

  function EncAll(l: seq<BeNode>): Bytes
  {
    if l == [] then [] else Enc(l[0]) + EncAll(l[1..])
  }

  function EncPairs(d: seq<Pair>): Bytes
  {
    if d == [] then [] else EncPair(d[0]) + EncPairs(d[1..])
  }

  function EncPair(p: Pair): Bytes
  {
    StrText(CStr(p.key)) + Enc(p.val)
  }

  // ---------------------------------------------------------------- reading

  /** The byte at p; a NUL follows the buffer. */
  function At(s: Bytes, p: nat): Byte
    requires p <= |s|
  {
    if p < |s| then s[p] else 0
  }

  function SkipSpace(s: Bytes, p: nat): (q: nat)
    requires p <= |s|
    ensures p <= q <= |s|
    decreases |s| - p
  {
    if p < |s| && IsSpace(s[p]) then SkipSpace(s, p + 1) else p
  }

  function DigitsEnd(s: Bytes, p: nat): (q: nat)
    requires p <= |s|
    ensures p <= q <= |s|
    ensures forall i :: p <= i < q ==> IsDigit(s[i])
    ensures !IsDigit(At(s, q))
    decreases |s| - p
  {
    if p < |s| && IsDigit(s[p]) then DigitsEnd(s, p + 1) else p
  }

  function DigitOf(b: Byte): nat
    requires IsDigit(b)
  {
    b as int - 48
  }

  function DigitsValue(s: Bytes, p: nat, q: nat): nat
    requires p <= q <= |s| && forall i :: p <= i < q ==> IsDigit(s[i])
    decreases q
  {
    if p == q then 0 else DigitsValue(s, p, q - 1) * 10 + DigitOf(s[q - 1])
  }

  function Clamp(v: int): int {
    if v > LLONG_MAX then LLONG_MAX else if v < LLONG_MIN then LLONG_MIN else v
  }

  /** strtoll in base ten: the number and where reading stopped. */
  function Strtoll(s: Bytes, p: nat): (r: (int, nat))
    requires p <= |s|
    ensures p <= r.1 <= |s|
    ensures p < |s| && IsDigit(s[p]) ==> r.1 > p
  {
    var q := SkipSpace(s, p);
    var neg := At(s, q) == MINUS;
    var b := if neg || At(s, q) == PLUS then q + 1 else q;
    var e := DigitsEnd(s, b);
    if e == b then (0, p)
    else
      var v: int := DigitsValue(s, b, e);
      (Clamp(if neg then 0 - v else v), e)
  }

  function ReadStr(s: Bytes, p: nat): (r: (Option<Bytes>, nat))
    requires p <= |s|
    ensures p <= r.1 <= |s|
    ensures p < |s| && IsDigit(s[p]) ==> r.1 > p
  {
    var (n, q) := Strtoll(s, p);
    if n < 0 || n > |s| - q - 1 || At(s, q) != COLON then (None, q)
    else (Some(s[q + 1..q + 1 + n]), q + 1 + n)
  }

  /** The tree that starts at p, if one can be read, and where reading stopped. */
  function Read(s: Bytes, p: nat): (r: (Option<BeNode>, nat))
    requires p <= |s|
    ensures p <= r.1 <= |s|
    ensures r.0.Some? ==> r.1 > p
    decreases |s| - p, 0
  {
    if p == |s| then (None, p)
    else if s[p] == LOWER_L then ReadList(s, p + 1, [])
    else if s[p] == LOWER_D then ReadDict(s, p + 1, [])
    else if s[p] == LOWER_I then
      var (v, q) := Strtoll(s, p + 1);
      if At(s, q) != LOWER_E then (None, q) else (Some(Int(v)), q + 1)
    else if IsDigit(s[p]) then
      var (t, q) := ReadStr(s, p);
      (Some(if t.Some? then Str(t.value) else NullStr), q)
    else (None, p)
  }

  function ReadList(s: Bytes, p: nat, acc: seq<BeNode>): (r: (Option<BeNode>, nat))
    requires p <= |s|
    ensures p <= r.1 <= |s|
    ensures r.0.Some? ==> r.1 > p
    decreases |s| - p, 1
  {
    if At(s, p) == LOWER_E then (Some(List(acc)), p + 1)
    else
      var (n, q) := Read(s, p);
      if n.None? then (None, q) else ReadList(s, q, acc + [n.value])
  }

  function ReadDict(s: Bytes, p: nat, acc: seq<Pair>): (r: (Option<BeNode>, nat))
    requires p <= |s|
    ensures p <= r.1 <= |s|
    ensures r.0.Some? ==> r.1 > p
    decreases |s| - p, 1
  {
    if At(s, p) == LOWER_E then (Some(Dict(acc)), p + 1)
    else
      var (k, q) := ReadStr(s, p);
      var (v, e) := Read(s, q);
      if k.None? || v.None? then (None, e) else ReadDict(s, e, acc + [Pair(k.value, v.value)])
  }

  // ---------------------------------------------------------------- the parser

  /** The two numbers the parser advances: where it reads, and how many bytes are left. */
  class Cursor {
    const s: Bytes
    var pos: nat
    var left: int

    ghost predicate Valid()
      reads this
    {
      pos <= |s| && left == |s| - pos
    }

    constructor (data: Bytes)
      ensures Valid() && s == data && pos == 0
    {
      s, pos, left := data, 0, |data|;
    }

    function Cur(): Byte
      requires Valid()
      reads this
    {
      At(s, pos)
    }

    method DecodeInt() returns (ret: int)
      requires Valid()
      modifies this
      ensures Valid() && left >= 0
      ensures ret == Strtoll(s, old(pos)).0 && pos == Strtoll(s, old(pos)).1
    {
      var (v, endp) := Strtoll(s, pos);
      left := left - (endp - pos);
      pos := endp;
      ret := v;
    }

    method DecodeStr() returns (ret: Option<Bytes>)
      requires Valid()
      modifies this
      ensures Valid() && left >= 0
      ensures ret == ReadStr(s, old(pos)).0 && pos == ReadStr(s, old(pos)).1
    {
      var sllen := DecodeInt();
      if sllen < 0 {
        return None;
      }
      if sllen > left - 1 {
        return None;
      }
      if Cur() == COLON {
        ret := Some(s[pos + 1..pos + 1 + sllen]);
        pos := pos + sllen + 1;
        left := left - (sllen + 1);
      } else {
        ret := None;
      }
    }

    /** The items up to the closing e. */
    method DecodeList() returns (ret: Option<BeNode>)
      requires Valid()
      modifies this
      ensures Valid() && left >= 0
      ensures ret == ReadList(s, old(pos), []).0 && pos == ReadList(s, old(pos), []).1
      decreases left, 1
    {
      ghost var start := pos;
      var l: seq<BeNode> := [];
      while Cur() != LOWER_E
        invariant Valid() && start <= pos
        invariant ReadList(s, start, []) == ReadList(s, pos, l)
        decreases left
      {
        var n := Decode();
        if n.None? {
          return None;
        }
        l := l + [n.value];
      }
      pos, left := pos + 1, left - 1;
      return Some(List(l));
    }

    /** The entries up to the closing e. */
    method DecodeDict() returns (ret: Option<BeNode>)
      requires Valid()
      modifies this
      ensures Valid() && left >= 0
      ensures ret == ReadDict(s, old(pos), []).0 && pos == ReadDict(s, old(pos), []).1
      decreases left, 1
    {
      ghost var start := pos;
      var d: seq<Pair> := [];
      while Cur() != LOWER_E
        invariant Valid() && start <= pos
        invariant ReadDict(s, start, []) == ReadDict(s, pos, d)
        decreases left
      {
        var key := DecodeStr();
        var val := Decode();
        if key.None? || val.None? {
          return None;
        }
        d := d + [Pair(key.value, val.value)];
      }
      pos, left := pos + 1, left - 1;
      return Some(Dict(d));
    }

    method Decode() returns (ret: Option<BeNode>)
      requires Valid()
      modifies this
      ensures Valid() && left >= 0
      ensures ret == Read(s, old(pos)).0 && pos == Read(s, old(pos)).1
      decreases left, 0
    {
      if left == 0 {
        return None;
      }
      var c := Cur();
      if c == LOWER_L {
        pos, left := pos + 1, left - 1;
        ret := DecodeList();
      } else if c == LOWER_D {
        pos, left := pos + 1, left - 1;
        ret := DecodeDict();
      } else if c == LOWER_I {
        pos, left := pos + 1, left - 1;
        var i := DecodeInt();
        if Cur() != LOWER_E {
          return None;
        }
        pos, left := pos + 1, left - 1;
        return Some(Int(i));
      } else if IsDigit(c) {
        var t := DecodeStr();
        return Some(if t.Some? then Str(t.value) else NullStr);
      } else {
        return None;
      }
    }
  }

  /** be_decoden: the tree at the start of the buffer. */
  method DecodeN(data: Bytes) returns (ret: Option<BeNode>)
    ensures ret == Read(data, 0).0
  {
    var c := new Cursor(data);
    ret := c.Decode();
  }

  // ---------------------------------------------------------------- the printer

  /** snprintf into buf at at..at+cap of a text that fits, terminator included. */
  method Snprintf(buf: array<Byte>, at: nat, cap: nat, text: Bytes)
    requires at + cap <= buf.Length && |text| < cap
    modifies buf
    ensures buf[..at + |text|] == old(buf[..at]) + text && buf[at + |text|] == 0
    ensures forall i :: at + |text| < i < buf.Length ==> buf[i] == old(buf[i])
  {
    Memcpy(buf, at, text);
    buf[at + |text|] := 0;
  }

  method Memcpy(buf: array<Byte>, at: nat, text: Bytes)
    requires at + |text| <= buf.Length
    modifies buf
    ensures buf[..at + |text|] == old(buf[..at]) + text
    ensures forall i :: at + |text| <= i < buf.Length ==> buf[i] == old(buf[i])
  {
    for i := 0 to |text|
      invariant buf[..at + i] == old(buf[..at]) + text[..i]
      invariant forall k :: at + i <= k < buf.Length ==> buf[k] == old(buf[k])
    {
      buf[at + i] := text[i];
    }
  }

  /** be_encode: prints the tree at buf[at..]; given more room than the text needs, it writes
      exactly the text, returns its length, and leaves what precedes it alone; of what follows
      it touches at most one byte. */
  method Encode(n: BeNode, buf: array<Byte>, at: nat, len: nat) returns (loc: nat)
    requires at + len <= buf.Length && |Enc(n)| < len
    modifies buf
    ensures loc == |Enc(n)|
    ensures buf[..at + loc] == old(buf[..at]) + Enc(n)
    ensures forall i :: at + loc < i < buf.Length ==> buf[i] == old(buf[i])
    decreases n, 1
  {
    match n
    case Str(s) => loc := EncodeStr(s, buf, at, len);
    case NullStr => loc := EncodeStr([], buf, at, len);
    case Int(i) =>
      var text := [LOWER_I] + IntText(i) + [LOWER_E];
      Snprintf(buf, at, len, text);
      loc := |text|;
    case List(l) => loc := EncodeList(n, l, buf, at, len);
    case Dict(d) => loc := EncodeDict(n, d, buf, at, len);
  }

  method EncodeList(ghost n: BeNode, l: seq<BeNode>, buf: array<Byte>, at: nat, len: nat) returns (loc: nat)
    requires n.List? && n.l == l
    requires at + len <= buf.Length && |Enc(n)| < len
    modifies buf
    ensures loc == |Enc(n)|
    ensures buf[..at + loc] == old(buf[..at]) + Enc(n)
    ensures forall i :: at + loc < i < buf.Length ==> buf[i] == old(buf[i])
    decreases n, 0, 1
  {
    ghost var before := buf[..at];
    Rejoin(before, [LOWER_L], EncAll(l), [LOWER_E]);
    Snprintf(buf, at, len, [LOWER_L]);
    var k := EncodeItems(n, l, buf, at + 1, len - 1);
    assert buf[..at + 1 + k] == before + [LOWER_L] + EncAll(l);
    Snprintf(buf, at + 1 + k, len - 1 - k, [LOWER_E]);
    loc := 1 + k + 1;
  }

  method EncodeDict(ghost n: BeNode, d: seq<Pair>, buf: array<Byte>, at: nat, len: nat) returns (loc: nat)
    requires n.Dict? && n.d == d
    requires at + len <= buf.Length && |Enc(n)| < len
    modifies buf
    ensures loc == |Enc(n)|
    ensures buf[..at + loc] == old(buf[..at]) + Enc(n)
    ensures forall i :: at + loc < i < buf.Length ==> buf[i] == old(buf[i])
    decreases n, 0, 1
  {
    ghost var before := buf[..at];
    Rejoin(before, [LOWER_D], EncPairs(d), [LOWER_E]);
    Snprintf(buf, at, len, [LOWER_D]);
    var k := EncodePairs(n, d, buf, at + 1, len - 1);
    assert buf[..at + 1 + k] == before + [LOWER_D] + EncPairs(d);
    Snprintf(buf, at + 1 + k, len - 1 - k, [LOWER_E]);
    loc := 1 + k + 1;
  }

  lemma Regroup(a: Bytes, b: Bytes, c: Bytes)
    ensures a + b + c == a + (b + c)
  {
  }

  lemma Rejoin(a: Bytes, b: Bytes, c: Bytes, d: Bytes)
    ensures a + b + c + d == a + (b + c + d)
  {
  }

  method EncodeStr(s: Bytes, buf: array<Byte>, at: nat, len: nat) returns (loc: nat)
    requires at + len <= buf.Length && |StrText(s)| < len
    modifies buf
    ensures loc == |StrText(s)|
    ensures buf[..at + loc] == old(buf[..at]) + StrText(s)
    ensures forall i :: at + loc < i < buf.Length ==> buf[i] == old(buf[i])
  {
    var head := Decimal(|s|) + [COLON];
    Snprintf(buf, at, len, head);
    Memcpy(buf, at + |head|, s);
    loc := |head| + |s|;
    Regroup(old(buf[..at]), head, s);
  }

  method EncodePair(p: Pair, buf: array<Byte>, at: nat, len: nat) returns (loc: nat)
    requires at + len <= buf.Length && |EncPair(p)| < len
    modifies buf
    ensures loc == |EncPair(p)|
    ensures buf[..at + loc] == old(buf[..at]) + EncPair(p)
    ensures forall i :: at + loc < i < buf.Length ==> buf[i] == old(buf[i])
    decreases p, 0
  {
    var key := StrText(CStr(p.key));
    Snprintf(buf, at, len, key);
    var k := Encode(p.val, buf, at + |key|, len - |key|);
    loc := |key| + k;
    Regroup(old(buf[..at]), key, Enc(p.val));
  }

  /** The loop over a list's items. */
  method EncodeItems(ghost n: BeNode, l: seq<BeNode>, buf: array<Byte>, at: nat, len: nat) returns (loc: nat)
    requires n.List? && n.l == l
    requires at + len <= buf.Length && |EncAll(l)| < len
    modifies buf
    ensures loc == |EncAll(l)|
    ensures buf[..at + loc] == old(buf[..at]) + EncAll(l)
    ensures forall i :: at + loc < i < buf.Length ==> buf[i] == old(buf[i])
    decreases n, 0, 0
  {
    loc := 0;
    ghost var before := buf[..at];
    for i := 0 to |l|
      invariant loc == |EncAll(l[..i])| && at + loc <= buf.Length && buf[..at + loc] == before + EncAll(l[..i])
      invariant forall k :: at + |EncAll(l)| < k < buf.Length ==> buf[k] == old(buf[k])
    {
      loc := EncodeNextItem(l, i, l[i], buf, at, loc, len, before);
    }
    assert l[..|l|] == l;
  }

  method EncodeNextItem(ghost l: seq<BeNode>, ghost i: nat, x: BeNode, buf: array<Byte>, at: nat, loc: nat, len: nat,
                        ghost before: Bytes) returns (end: nat)
    requires i < |l| && x == l[i] && at + len <= buf.Length && |EncAll(l)| < len
    requires loc == |EncAll(l[..i])| && at + loc <= buf.Length && buf[..at + loc] == before + EncAll(l[..i])
    modifies buf
    ensures end == |EncAll(l[..i + 1])| && at + end <= buf.Length && buf[..at + end] == before + EncAll(l[..i + 1])
    ensures forall k :: at + |EncAll(l)| < k < buf.Length ==> buf[k] == old(buf[k])
    decreases x, 2
  {
    EncAllRoom(l, i);
    Regroup(before, EncAll(l[..i]), Enc(x));
    var k := Encode(x, buf, at + loc, len - loc);
    end := loc + k;
  }

  /** The loop over a dictionary's entries. */
  method EncodePairs(ghost n: BeNode, d: seq<Pair>, buf: array<Byte>, at: nat, len: nat) returns (loc: nat)
    requires n.Dict? && n.d == d
    requires at + len <= buf.Length && |EncPairs(d)| < len
    modifies buf
    ensures loc == |EncPairs(d)|
    ensures buf[..at + loc] == old(buf[..at]) + EncPairs(d)
    ensures forall i :: at + loc < i < buf.Length ==> buf[i] == old(buf[i])
    decreases n, 0, 0
  {
    loc := 0;
    ghost var before := buf[..at];
    for i := 0 to |d|
      invariant loc == |EncPairs(d[..i])| && at + loc <= buf.Length && buf[..at + loc] == before + EncPairs(d[..i])
      invariant forall k :: at + |EncPairs(d)| < k < buf.Length ==> buf[k] == old(buf[k])
    {
      loc := EncodeNextPair(d, i, d[i], buf, at, loc, len, before);
    }
    assert d[..|d|] == d;
  }

  method EncodeNextPair(ghost d: seq<Pair>, ghost i: nat, x: Pair, buf: array<Byte>, at: nat, loc: nat, len: nat,
                        ghost before: Bytes) returns (end: nat)
    requires i < |d| && x == d[i] && at + len <= buf.Length && |EncPairs(d)| < len
    requires loc == |EncPairs(d[..i])| && at + loc <= buf.Length && buf[..at + loc] == before + EncPairs(d[..i])
    modifies buf
    ensures end == |EncPairs(d[..i + 1])| && at + end <= buf.Length && buf[..at + end] == before + EncPairs(d[..i + 1])
    ensures forall k :: at + |EncPairs(d)| < k < buf.Length ==> buf[k] == old(buf[k])
    decreases x, 2
  {
    EncPairsRoom(d, i);
    Regroup(before, EncPairs(d[..i]), EncPair(x));
    var k := EncodePair(x, buf, at + loc, len - loc);
    end := loc + k;
  }

  lemma {:induction false} EncAllAppend(a: seq<BeNode>, n: BeNode)
    ensures EncAll(a + [n]) == EncAll(a) + Enc(n)
  {
    if a == [] {
      assert [n][1..] == [];
    } else {
      assert (a + [n])[1..] == a[1..] + [n];
      EncAllAppend(a[1..], n);
    }
  }

  /** What is printed once item i is, and that it fits. */
  lemma EncAllRoom(l: seq<BeNode>, i: nat)
    requires i < |l|
    ensures EncAll(l[..i + 1]) == EncAll(l[..i]) + Enc(l[i])
    ensures |EncAll(l[..i])| + |Enc(l[i])| <= |EncAll(l)|
  {
    EncAllNext(l, i);
    EncAllSplit(l, i);
  }

  lemma EncAllSizes(l: seq<BeNode>, i: nat)
    requires i < |l|
    ensures |EncAll(l[..i + 1])| == |EncAll(l[..i])| + |Enc(l[i])|
    ensures |EncAll(l[i..])| == |Enc(l[i])| + |EncAll(l[i + 1..])|
  {
    EncAllNext(l, i);
  }

  lemma {:induction false} EncAllSplit(l: seq<BeNode>, i: nat)
    requires i <= |l|
    ensures |EncAll(l[..i])| + |EncAll(l[i..])| == |EncAll(l)|
  {
    if i == 0 {
      assert l[0..] == l;
    } else {
      EncAllSplit(l, i - 1);
      EncAllSizes(l, i - 1);
    }
  }

  lemma EncAllNext(l: seq<BeNode>, i: nat)
    requires i < |l|
    ensures EncAll(l[..i + 1]) == EncAll(l[..i]) + Enc(l[i])
    ensures EncAll(l[i..]) == Enc(l[i]) + EncAll(l[i + 1..])
  {
    assert l[..i + 1] == l[..i] + [l[i]];
    EncAllAppend(l[..i], l[i]);
  }

  lemma {:induction false} EncPairsAppend(a: seq<Pair>, p: Pair)
    ensures EncPairs(a + [p]) == EncPairs(a) + EncPair(p)
  {
    if a == [] {
      assert [p][1..] == [];
    } else {
      assert (a + [p])[1..] == a[1..] + [p];
      EncPairsAppend(a[1..], p);
    }
  }

  /** What is printed once item i is, and that it fits. */
  lemma EncPairsRoom(d: seq<Pair>, i: nat)
    requires i < |d|
    ensures EncPairs(d[..i + 1]) == EncPairs(d[..i]) + EncPair(d[i])
    ensures |EncPairs(d[..i])| + |EncPair(d[i])| <= |EncPairs(d)|
  {
    EncPairsNext(d, i);
    EncPairsSplit(d, i);
  }

  lemma EncPairsSizes(d: seq<Pair>, i: nat)
    requires i < |d|
    ensures |EncPairs(d[..i + 1])| == |EncPairs(d[..i])| + |EncPair(d[i])|
    ensures |EncPairs(d[i..])| == |EncPair(d[i])| + |EncPairs(d[i + 1..])|
  {
    EncPairsNext(d, i);
  }

  lemma {:induction false} EncPairsSplit(d: seq<Pair>, i: nat)
    requires i <= |d|
    ensures |EncPairs(d[..i])| + |EncPairs(d[i..])| == |EncPairs(d)|
  {
    if i == 0 {
      assert d[0..] == d;
    } else {
      EncPairsSplit(d, i - 1);
      EncPairsSizes(d, i - 1);
    }
  }

  lemma EncPairsNext(d: seq<Pair>, i: nat)
    requires i < |d|
    ensures EncPairs(d[..i + 1]) == EncPairs(d[..i]) + EncPair(d[i])
    ensures EncPairs(d[i..]) == EncPair(d[i]) + EncPairs(d[i + 1..])
  {
    assert d[..i + 1] == d[..i] + [d[i]];
    EncPairsAppend(d[..i], d[i]);
  }

  // ---------------------------------------------------------------- appending to a tree

  /** A C string literal: bytes without NUL. */
  type CString = b: Bytes | forall i :: 0 <= i < |b| ==> b[i] != 0

  lemma {:induction false} CStrWhole(key: CString)
    ensures CStr(key) == key
  {
    if key == [] {
    } else {
      CStrWhole(key[1..]);
    }
  }

  /** be_add_keypair: appends an entry to a dictionary, and refuses any other node. */
  function AddKeypair(dict: BeNode, key: CString, val: BeNode): BeNode {
    if dict.Dict? then Dict(dict.d + [Pair(key, val)]) else dict
  }

  /** be_add_list. */
  function AddList(list: BeNode, n: BeNode): BeNode {
    if list.List? then List(list.l + [n]) else list
  }
}
