// The Internet checksum of Sockets/Task_4/client_2.c and client_3.c, against
// the one's complement sum of RFC 1071, sections 1 and 2.
module Checksum {

  type Byte = x: int | 0 <= x < 0x100
  type Word = x: int | 0 <= x < 0x1_0000

  const WORD := 0x1_0000
  const MASK := 0xFFFF
  const WRAP := 0x1_0000_0000

  // ----- sums of words

  function Sum(ws: seq<Word>): nat {
    if ws == [] then 0 else ws[0] + Sum(ws[1..])
  }

  // One word as either kind of host reads it.
  function HostWord(first: Byte, second: Byte, little: bool): Word {
    if little then (first as int) + 0x100 * (second as int) else 0x100 * (first as int) + (second as int)
  }

  // The 16-bit words of a buffer as a little-endian host reads them; a last odd
  // byte is read alone.
  function Words(b: seq<Byte>): (ws: seq<Word>)
    ensures |ws| == (|b| + 1) / 2
  {
    if b == [] then []
    else if |b| == 1 then [b[0]]
    else [HostWord(b[0], b[1], true)] + Words(b[2..])
  }

  // Folding: the high half is added to the low half until none is left.
  function Fold(sum: nat): nat {
    if sum / WORD == 0 then sum else Fold(sum % WORD + sum / WORD)
  }

  function Rounds(sum: nat): nat
    decreases sum
  {
    if sum / WORD == 0 then 0 else 1 + Rounds(sum % WORD + sum / WORD)
  }

  // What folding leaves: 1..65535, or 0 for 0 only.
  function Residue(sum: nat): Word {
    if sum == 0 then 0 else 1 + (sum - 1) % MASK
  }

  lemma ModShift(a: nat, k: nat)
    ensures (a + MASK * k) % MASK == a % MASK
  {
  }

  lemma {:induction false} FoldIsResidue(sum: nat)
    ensures Fold(sum) == Residue(sum)
    decreases sum
  {
    if sum / WORD > 0 {
      var h, l := sum / WORD, sum % WORD;
      FoldIsResidue(l + h);
      ModShift(l + h - 1, h);
    }
  }

  // Two rounds always suffice for a 32-bit sum.
  lemma TwoRounds(sum: nat)
    requires sum < WRAP
    ensures Rounds(sum) <= 2
  {
    var once := sum % WORD + sum / WORD;
    var twice := once % WORD + once / WORD;
    assert twice / WORD == 0;
    assert Rounds(twice) == 0 && Rounds(once) <= 1;
  }

  // The checksum of a buffer whose words have this 32-bit sum.
  function Complement(sum: nat): (r: Word) {
    FoldIsResidue(sum);
    MASK - Fold(sum)
  }

  // ----- one's complement arithmetic, as RFC 1071 defines it

  function OnesAdd(a: Word, b: Word): Word {
    if a + b > MASK then a + b - MASK else a + b
  }

  function OnesSum(ws: seq<Word>): Word {
    if ws == [] then 0 else OnesAdd(ws[0], OnesSum(ws[1..]))
  }

  lemma ResidueAdd(a: Word, sum: nat)
    ensures OnesAdd(a, Residue(sum)) == Residue(a + sum)
  {
    if sum > 0 && a > 0 {
      var q, r := (sum - 1) / MASK, (sum - 1) % MASK;
      assert a + sum - 1 == (a + r) + MASK * q;
      ModShift(a + r, q);
    }
  }

  // Adding everything first and folding at the end is the one's complement sum.
  lemma {:induction false} FoldIsOnesSum(ws: seq<Word>)
    ensures Fold(Sum(ws)) == OnesSum(ws)
  {
    FoldIsResidue(Sum(ws));
    if ws != [] {
      FoldIsOnesSum(ws[1..]);
      FoldIsResidue(Sum(ws[1..]));
      ResidueAdd(ws[0], Sum(ws[1..]));
    }
  }

  // ----- the program

  // Lines 12-22: the 32-bit sum, wrap-around included.
  method AddWords(buffer: array<Byte>, length: int) returns (sum: nat)
    requires length <= buffer.Length
    ensures var b := if length < 0 then [] else buffer[..length];
            sum == Sum(Words(b)) % WRAP
  {
    sum := 0;
    var len, p := length, 0;
    ghost var b := if length < 0 then [] else buffer[..length];
    while len > 1
      invariant length < 0 ==> p == 0 && len == length
      invariant length >= 0 ==> 0 <= p && 0 <= len && p + len == length
      invariant p <= |b| && sum < WRAP
      invariant (sum + Sum(Words(b[p..]))) % WRAP == Sum(Words(b)) % WRAP
    {
      WordsStep(b, p);
      WrapStep(sum, HostWord(buffer[p], buffer[p + 1], true), Sum(Words(b[p + 2..])));
      sum := (sum + HostWord(buffer[p], buffer[p + 1], true)) % WRAP;
      p := p + 2;
      len := len - 2;
    }
    LastWord(b, p);
    if len == 1 {
      sum := (sum + buffer[p]) % WRAP;
    }
  }

  // The folding loop goes round at most twice.
  method CalculateChecksum(buffer: array<Byte>, length: int) returns (result: Word, ghost rounds: nat)
    requires length <= buffer.Length
    ensures var b := if length < 0 then [] else buffer[..length];
            result == Complement(Sum(Words(b)) % WRAP)
    ensures var b := if length < 0 then [] else buffer[..length];
            rounds == Rounds(Sum(Words(b)) % WRAP) <= 2
  {
    var total := AddWords(buffer, length);
    var sum: int := total;
    rounds := 0;
    while sum / WORD != 0
      invariant 0 <= sum && Fold(sum) == Fold(total) && rounds + Rounds(sum) == Rounds(total)
      decreases sum
    {
      sum := sum % WORD + sum / WORD;
      rounds := rounds + 1;
    }
    result := MASK - sum;
    TwoRounds(total);
  }

  lemma WordsStep(b: seq<Byte>, p: nat)
    requires p + 1 < |b|
    ensures Sum(Words(b[p..])) == HostWord(b[p], b[p + 1], true) + Sum(Words(b[p + 2..]))
  {
    assert b[p..][2..] == b[p + 2..];
    assert Words(b[p..])[1..] == Words(b[p + 2..]);
  }

  lemma LastWord(b: seq<Byte>, p: nat)
    requires p <= |b| <= p + 1
    ensures Sum(Words(b[p..])) == if p < |b| then b[p] else 0
  {
    if p < |b| {
      assert Words(b[p..])[1..] == [];
    }
  }

  lemma WrapStep(sum: nat, w: nat, rest: nat)
    ensures (sum + (w + rest)) % WRAP == ((sum + w) % WRAP + rest) % WRAP
  {
  }

  // ----- the 32-bit bound

  lemma {:induction false} SumBound(ws: seq<Word>)
    ensures Sum(ws) <= MASK * |ws|
  {
    if ws != [] {
      SumBound(ws[1..]);
    }
  }

  lemma {:induction false} AllOnesSum(b: seq<Byte>)
    requires forall i :: 0 <= i < |b| ==> b[i] == 0xFF
    ensures Sum(Words(b)) == MASK * (|b| / 2) + if |b| % 2 == 1 then 0xFF else 0
  {
    if |b| >= 2 {
      AllOnesSum(b[2..]);
      assert Words(b)[1..] == Words(b[2..]);
    } else if |b| == 1 {
      assert Words(b)[1..] == [];
    }
  }

  const LONGEST := 131074

  // The 32-bit sum of every buffer of this length stays below 2^32 exactly when
  // the length is at most 131074.
  lemma NeverWrapsIff(length: nat)
    ensures (forall b: seq<Byte> :: |b| == length ==> Sum(Words(b)) < WRAP) <==> length <= LONGEST
  {
    if length <= LONGEST {
      forall b: seq<Byte> | |b| == length ensures Sum(Words(b)) < WRAP {
        SumBound(Words(b));
      }
    } else {
      var b: seq<Byte> := seq(length, _ => 0xFF);
      AllOnesSum(b);
      assert |b| == length && Sum(Words(b)) >= WRAP;
    }
  }

  // ----- verification

  ghost predicate Short(b: seq<Byte>) {
    |b| <= LONGEST
  }

  // The checksum of a buffer that is not too long to be summed in 32 bits.
  function ChecksumOf(b: seq<Byte>): (r: Word)
    requires Short(b)
  {
    Complement(Sum(Words(b)))
  }

  lemma SmallMod(sum: nat)
    requires sum < WRAP
    ensures sum % WRAP == sum
  {
  }

  lemma ChecksumIsOnesComplement(b: seq<Byte>)
    requires Short(b)
    ensures Sum(Words(b)) % WRAP == Sum(Words(b))
    ensures ChecksumOf(b) == MASK - OnesSum(Words(b))
  {
    SumBound(Words(b));
    SmallMod(Sum(Words(b)));
    FoldIsOnesSum(Words(b));
  }

  lemma {:induction false} WordsSplit(a: seq<Byte>, b: seq<Byte>)
    requires |a| % 2 == 0
    ensures Sum(Words(a + b)) == Sum(Words(a)) + Sum(Words(b))
    decreases |a|
  {
    if a == [] {
      assert a + b == b;
    } else {
      assert (a + b)[2..] == a[2..] + b;
      assert Words(a + b)[1..] == Words(a[2..] + b) && Words(a)[1..] == Words(a[2..]);
      WordsSplit(a[2..], b);
    }
  }

  lemma {:induction false} ZerosSum(b: seq<Byte>)
    requires forall i :: 0 <= i < |b| ==> b[i] == 0
    ensures Sum(Words(b)) == 0
    decreases |b|
  {
    if |b| >= 2 {
      ZerosSum(b[2..]);
      assert Words(b)[1..] == Words(b[2..]);
    } else if |b| == 1 {
      assert Words(b)[1..] == [];
    }
  }

  // One byte 0xFF and then zeros.
  lemma LoneByteSum(b: seq<Byte>)
    requires b != [] && b[0] == 0xFF && forall i :: 1 <= i < |b| ==> b[i] == 0
    ensures Sum(Words(b)) == 0xFF
  {
    if |b| == 1 {
      assert Words(b)[1..] == [];
    } else {
      ZerosSum(b[2..]);
      assert Words(b)[1..] == Words(b[2..]);
    }
  }

  // The full bytes, one more and zeros sum to just above 2^32.
  lemma OverlongSum(full: seq<Byte>, rest: seq<Byte>)
    requires |full| == LONGEST && forall i :: 0 <= i < |full| ==> full[i] == 0xFF
    requires rest != [] && rest[0] == 0xFF && forall i :: 1 <= i < |rest| ==> rest[i] == 0
    ensures Sum(Words(full + rest)) == WRAP + 0xFE
  {
    WordsSplit(full, rest);
    AllOnesSum(full);
    LoneByteSum(rest);
  }

  // That sum wraps to 0xFE, where the one's complement sum is 0xFF.
  lemma WrappedWrong(ws: seq<Word>)
    requires Sum(ws) == WRAP + 0xFE
    ensures Complement(Sum(ws) % WRAP) != MASK - OnesSum(ws)
  {
    var wrapped := Sum(ws) % WRAP;
    assert wrapped == 0xFE;
    FoldIsOnesSum(ws);
    FoldIsResidue(Sum(ws));
    FoldIsResidue(wrapped);
  }

  // The program's result is the complement of the one's complement sum for every
  // buffer of this length exactly when the length is at most 131074.
  lemma ChecksumRightIff(length: nat)
    ensures (forall b: seq<Byte> :: |b| == length ==> Complement(Sum(Words(b)) % WRAP) == MASK - OnesSum(Words(b))) <==>
            length <= LONGEST
  {
    if length <= LONGEST {
      forall b: seq<Byte> | |b| == length ensures Complement(Sum(Words(b)) % WRAP) == MASK - OnesSum(Words(b)) {
        ChecksumIsOnesComplement(b);
      }
    } else {
      var full: seq<Byte> := seq(LONGEST, _ => 0xFF);
      var rest: seq<Byte> := [0xFF] + seq(length - LONGEST - 1, _ => 0);
      OverlongSum(full, rest);
      WrappedWrong(Words(full + rest));
      assert |full + rest| == length;
    }
  }

  function Store(b: seq<Byte>, at: nat, w: Word): (r: seq<Byte>)
    requires at + 1 < |b|
    ensures |r| == |b|
  {
    b[at := w % 0x100][at + 1 := w / 0x100]
  }

  lemma {:induction false} StoreWord(b: seq<Byte>, k: nat, w: Word)
    requires 2 * k + 1 < |b|
    ensures Words(Store(b, 2 * k, w)) == Words(b)[k := w]
  {
    var c := Store(b, 2 * k, w);
    if k == 0 {
      assert c[2..] == b[2..];
    } else {
      assert c[2..] == Store(b[2..], 2 * (k - 1), w);
      StoreWord(b[2..], k - 1, w);
    }
  }

  lemma {:induction false} SumUpdate(ws: seq<Word>, k: nat, w: Word)
    requires k < |ws|
    ensures Sum(ws[k := w]) + ws[k] == Sum(ws) + w
  {
    if k == 0 {
      assert ws[0 := w][1..] == ws[1..];
    } else {
      assert ws[k := w][1..] == ws[1..][k - 1 := w];
      SumUpdate(ws[1..], k - 1, w);
    }
  }

  lemma ZeroIffMultiple(sum: nat)
    ensures Complement(sum) == 0 <==> sum > 0 && sum % MASK == 0
  {
    FoldIsResidue(sum);
    if sum > 0 {
      var q, r := (sum - 1) / MASK, (sum - 1) % MASK;
      if r + 1 == MASK { ModShift(0, q + 1); } else { ModShift(r + 1, q); }
    }
  }

  // Storing the checksum in its own zeroed, even-aligned field makes the
  // receiver's recomputation give zero.
  lemma StoredChecksumVerifies(b: seq<Byte>, k: nat)
    requires Short(b) && 2 * k + 1 < |b| && b[2 * k] == 0 && b[2 * k + 1] == 0
    ensures ChecksumOf(Store(b, 2 * k, ChecksumOf(b))) == 0
  {
    var sum, c := Sum(Words(b)), ChecksumOf(b);
    assert Store(b, 2 * k, 0) == b;
    StoreWord(b, k, 0);
    StoreWord(b, k, c);
    assert Words(b)[k] == 0;
    SumUpdate(Words(b), k, c);
    FoldIsResidue(sum);
    if sum > 0 {
      ModShift(0, (sum - 1) / MASK + 1);
    }
    ZeroIffMultiple(sum + c);
  }

  // A buffer that verifies and has one word changed still verifies only if the
  // change is between 0x0000 and 0xFFFF and some word is left non-zero.
  lemma OneWordChange(ws: seq<Word>, k: nat, w: Word)
    requires k < |ws| && Complement(Sum(ws)) == 0
    ensures Complement(Sum(ws[k := w])) == 0 <==>
            (w == ws[k] || (w == 0 && ws[k] == MASK && Sum(ws[k := w]) > 0) || (w == MASK && ws[k] == 0))
  {
    var sum, sum' := Sum(ws), Sum(ws[k := w]);
    SumUpdate(ws, k, w);
    ZeroIffMultiple(sum);
    ZeroIffMultiple(sum');
    var q := sum / MASK;
    assert sum == MASK * q;
    if w >= ws[k] {
      ModShift(w - ws[k], q);
    } else if sum' > 0 {
      assert sum' == (MASK - (ws[k] - w)) + MASK * (q - 1);
      ModShift(MASK - (ws[k] - w), q - 1);
    }
  }

  // ----- order and byte order

  lemma {:induction false} SumSplit(a: seq<Word>, b: seq<Word>)
    ensures Sum(a + b) == Sum(a) + Sum(b)
  {
    if a == [] {
      assert a + b == b;
    } else {
      assert (a + b)[1..] == a[1..] + b;
      SumSplit(a[1..], b);
    }
  }

  lemma SumInsert(a: seq<Word>, x: Word, b: seq<Word>)
    ensures Sum(a + ([x] + b)) == x + Sum(a + b)
  {
    SumSplit(a, [x] + b);
    SumSplit(a, b);
    assert ([x] + b)[1..] == b;
  }

  lemma MultisetInsert(a: seq<Word>, x: Word, b: seq<Word>)
    ensures multiset(a + ([x] + b)) == multiset(a + b) + multiset{x}
  {
  }

  lemma CancelOne(a: multiset<Word>, b: multiset<Word>, x: Word)
    requires a + multiset{x} == b + multiset{x}
    ensures a == b
  {
    assert a == (a + multiset{x}) - multiset{x};
  }

  lemma SplitAt(vs: seq<Word>, k: nat)
    requires k < |vs|
    ensures vs[..k] + ([vs[k]] + vs[k + 1..]) == vs
  {
  }

  // Removing the first word of ws from vs, wherever it stands there.
  lemma RemoveFirst(ws: seq<Word>, vs: seq<Word>) returns (rest: seq<Word>)
    requires ws != [] && multiset(ws) == multiset(vs)
    ensures multiset(ws[1..]) == multiset(rest) && Sum(vs) == ws[0] + Sum(rest)
  {
    assert ws[0] in multiset(vs);
    var k :| 0 <= k < |vs| && vs[k] == ws[0];
    SplitAt(vs, k);
    SplitAt(ws, 0);
    rest := vs[..k] + vs[k + 1..];
    SumInsert(vs[..k], vs[k], vs[k + 1..]);
    MultisetInsert(vs[..k], vs[k], vs[k + 1..]);
    MultisetInsert(ws[..0], ws[0], ws[1..]);
    assert ws[..0] + ws[1..] == ws[1..];
    CancelOne(multiset(ws[1..]), multiset(rest), ws[0]);
  }

  // The words may be added in any order.
  lemma {:induction false} OrderIrrelevant(ws: seq<Word>, vs: seq<Word>)
    requires multiset(ws) == multiset(vs)
    ensures Sum(ws) == Sum(vs)
    decreases |ws|
  {
    if ws == [] {
      assert |multiset(vs)| == |vs|;
    } else {
      var rest := RemoveFirst(ws, vs);
      OrderIrrelevant(ws[1..], rest);
    }
  }

  function Swap(w: Word): Word {
    0x100 * (w % 0x100) + w / 0x100
  }

  function SwapAll(ws: seq<Word>): (r: seq<Word>)
    ensures |r| == |ws|
  {
    if ws == [] then [] else [Swap(ws[0])] + SwapAll(ws[1..])
  }

  function HighBytes(ws: seq<Word>): nat {
    if ws == [] then 0 else ws[0] / 0x100 + HighBytes(ws[1..])
  }

  // Swapping is multiplication by 256 modulo 65535.
  lemma {:induction false} SwapScales(ws: seq<Word>)
    ensures 0x100 * Sum(ws) == Sum(SwapAll(ws)) + MASK * HighBytes(ws)
    ensures Sum(SwapAll(ws)) == 0 <==> Sum(ws) == 0
  {
    if ws != [] {
      SwapScales(ws[1..]);
      assert SwapAll(ws)[1..] == SwapAll(ws[1..]);
    }
  }

  lemma SameResidue(x: nat, y: nat, j: nat, k: nat)
    requires x + MASK * j == y + MASK * k && (x == 0 <==> y == 0)
    ensures Residue(x) == Residue(y)
  {
    if x > 0 {
      ModShift(x - 1, j);
      ModShift(y - 1, k);
    }
  }

  lemma ResidueIsMod(sum: nat) returns (q: nat)
    ensures sum == Residue(sum) + MASK * q && (Residue(sum) == 0 <==> sum == 0)
  {
    q := if sum == 0 then 0 else (sum - 1) / MASK;
  }

  // Swapping the bytes of a word, and of a word's complement.
  lemma SwapWord(w: Word)
    ensures 0x100 * w == Swap(w) + MASK * (w / 0x100)
    ensures Swap(MASK - w) == MASK - Swap(w)
    ensures Swap(w) == 0 <==> w == 0
    ensures Residue(Swap(w)) == Swap(w)
  {
  }

  // Swapping the bytes of every word swaps the bytes of the checksum.
  lemma ByteOrderCommutes(ws: seq<Word>)
    ensures Complement(Sum(SwapAll(ws))) == Swap(Complement(Sum(ws)))
  {
    var s, t := Sum(ws), Sum(SwapAll(ws));
    SwapScales(ws);
    FoldIsResidue(s);
    FoldIsResidue(t);
    var f := Residue(s);
    var q := ResidueIsMod(s);
    SwapWord(f);
    var j, k := HighBytes(ws), f / 0x100 + 0x100 * q;
    assert t + MASK * j == 0x100 * f + MASK * (0x100 * q);
    SameResidue(t, Swap(f), j, k);
  }

  // ----- the odd tail

  // The sum on either kind of host; the odd tail is one byte on both.
  function HostSum(b: seq<Byte>, little: bool): nat {
    if b == [] then 0
    else if |b| == 1 then b[0]
    else HostWord(b[0], b[1], little) + HostSum(b[2..], little)
  }

  lemma {:induction false} LittleEndianSum(b: seq<Byte>)
    ensures HostSum(b, true) == Sum(Words(b))
  {
    if |b| >= 2 {
      LittleEndianSum(b[2..]);
    }
  }

  lemma {:induction false} TailMoves(b: seq<Byte>, tail: Byte, little: bool)
    requires |b| % 2 == 0
    ensures HostSum(b + [tail], little) == HostSum(b + [tail, 0], little) <==> little || tail == 0
  {
    if b == [] {
      assert b + [tail] == [tail] && b + [tail, 0] == [tail, 0];
    } else {
      assert (b + [tail])[2..] == b[2..] + [tail];
      assert (b + [tail, 0])[2..] == b[2..] + [tail, 0];
      TailMoves(b[2..], tail, little);
    }
  }

  // The code's reading of an odd tail is the zero padding of the standard on a
  // little-endian host, whose sum is that of Words, and on a big-endian host only
  // for a zero byte.
  lemma TailIsPaddingIff(b: seq<Byte>, tail: Byte, little: bool)
    requires |b| % 2 == 0
    ensures HostSum(b + [tail], little) == HostSum(b + [tail, 0], little) <==> little || tail == 0
    ensures HostSum(b + [tail], true) == Sum(Words(b + [tail])) == Sum(Words(b + [tail, 0]))
  {
    TailMoves(b, tail, little);
    TailMoves(b, tail, true);
    LittleEndianSum(b + [tail]);
    LittleEndianSum(b + [tail, 0]);
  }

  // ----- the IPv4 header

  const CHECK_AT := 10

  // The bytes stored for a checksum, lowest first.
  lemma StoredBytes(b: seq<Byte>, w: Word)
    requires |b| >= 20
    ensures var c := Store(b, CHECK_AT, w);
            HostWord(c[10], c[11], true) == w &&
            forall i :: 0 <= i < |b| && i != 10 && i != 11 ==> c[i] == b[i]
  {
  }

  // Lines 82 and 86 of client_2.c: the header checksum, bytes 10 and 11, is
  // zeroed, computed over the header and stored; the header then verifies.
  method FillHeaderChecksum(header: array<Byte>)
    requires 20 <= header.Length <= LONGEST
    modifies header
    ensures ChecksumOf(header[..]) == 0
    ensures HostWord(header[10], header[11], true) == ChecksumOf(old(header[..])[10 := 0][11 := 0])
    ensures forall i :: 0 <= i < header.Length && i != 10 && i != 11 ==> header[i] == old(header[i])
  {
    ghost var zeroed := header[..][10 := 0][11 := 0];
    header[CHECK_AT] := 0;
    header[CHECK_AT + 1] := 0;
    assert header[..] == zeroed && header[..header.Length] == zeroed;
    var check, _ := CalculateChecksum(header, header.Length);
    ChecksumIsOnesComplement(zeroed);
    StoredChecksumVerifies(zeroed, CHECK_AT / 2);
    StoredBytes(zeroed, check);
    header[CHECK_AT] := check % 0x100;
    header[CHECK_AT + 1] := check / 0x100;
    assert header[..] == Store(zeroed, CHECK_AT, check);
  }
}
