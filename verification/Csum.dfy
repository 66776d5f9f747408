/** The Internet checksum (ovs/lib/csum.c) and its incremental update, equation 3
 * in section 3 of RFC 1624.
 */
module Csum {

  import opened MachineInts

  const M := 0xffff   // the modulus of one's-complement arithmetic on 16 bits

  function Complement(x: U16): U16 { M - x }

  // ---------------------------------------------------------------------
  // One's-complement sums

  /** 16-bit addition with end-around carry. */
  function OnesAdd(a: U16, b: U16): U16 {
    if a + b < 0x1_0000 then a + b else a + b - M
  }

  function OnesSum(ws: seq<U16>): U16 {
    if ws == [] then 0 else OnesAdd(OnesSum(ws[..|ws| - 1]), ws[|ws| - 1])
  }

  /** The checksum by its definition: the complement of the one's-complement sum. */
  function Checksum(ws: seq<U16>): U16 {
    Complement(OnesSum(ws))
  }

  function WordSum(ws: seq<U16>): nat {
    if ws == [] then 0 else WordSum(ws[..|ws| - 1]) + ws[|ws| - 1]
  }

  /** The 16-bit number a plain sum folds to; only 0 folds to 0. */
  function Fold(s: nat): U16 {
    if s == 0 then 0 else 1 + (s - 1) % M
  }

  lemma {:induction false} AddMultiple(s: nat, k: nat)
    ensures (s + k * M) % M == s % M
  {
    if k > 0 {
      AddMultiple(s, k - 1);
      assert s + k * M == s + (k - 1) * M + M;
    }
  }

  /** Folding is fixed by the residue, except that zero and M are apart. */
  lemma FoldByResidue(s: nat, x: nat)
    requires 0 < x <= M && s > 0 && s % M == x % M
    ensures Fold(s) == x
  {
    var r := (s - 1) % M;
    assert (r + 1) % M == s % M;
  }

  lemma FoldResidue(s: nat)
    ensures Fold(s) % M == s % M && (Fold(s) == 0 <==> s == 0)
  {
    if s > 0 {
      assert ((s - 1) % M + 1) % M == s % M;
    }
  }

  /** End-around addition is addition of the plain sums. */
  lemma OnesAddFolds(s: nat, w: U16)
    ensures OnesAdd(Fold(s), w) == Fold(s + w)
  {
    FoldResidue(s);
    var f, x := Fold(s), OnesAdd(Fold(s), w);
    assert (s + w) % M == (f + w) % M;
    AddMultiple(x, 1);
    if s + w > 0 {
      FoldByResidue(s + w, x);
    }
  }

  /** The one's-complement sum is the plain sum, folded. */
  lemma {:induction false} OnesSumFolds(ws: seq<U16>)
    ensures OnesSum(ws) == Fold(WordSum(ws))
  {
    if ws != [] {
      OnesSumFolds(ws[..|ws| - 1]);
      OnesAddFolds(WordSum(ws[..|ws| - 1]), ws[|ws| - 1]);
    }
  }

  lemma {:induction false} WordSumBound(ws: seq<U16>)
    ensures WordSum(ws) <= |ws| * M
  {
    if ws != [] {
      WordSumBound(ws[..|ws| - 1]);
    }
  }

  // ---------------------------------------------------------------------
  // csum.c

  function CsumAdd16(partial: U32, w: U16): U32 {
    (partial + w) % 0x1_0000_0000
  }

  /** csum_finish: the loop folds the carries and then complements. */
  method CsumFinish(partial: U32) returns (r: U16)
    ensures r == Complement(Fold(partial))
  {
    var p := partial;
    while p / 0x1_0000 != 0
      invariant Fold(p) == Fold(partial)
      decreases p
    {
      FoldsCarry(p);
      p := p % 0x1_0000 + p / 0x1_0000;
    }
    FoldsSmall(p);
    r := Complement(p);
  }

  lemma FoldsCarry(p: nat)
    ensures Fold(p % 0x1_0000 + p / 0x1_0000) == Fold(p)
  {
    var q := p % 0x1_0000 + p / 0x1_0000;
    assert p == q + (p / 0x1_0000) * M;
    AddMultiple(q, p / 0x1_0000);
    FoldResidue(q);
    if p > 0 {
      FoldByResidue(p, Fold(q));
    }
  }

  lemma FoldsSmall(p: U16)
    ensures Fold(p) == p
  {
    if p > 0 {
      FoldByResidue(p, p);
    }
  }

  /** The 16-bit words of some bytes on a little-endian host; an odd byte is a word of its own. */
  function Words(data: seq<Byte>): (ws: seq<U16>)
    ensures |ws| == (|data| + 1) / 2
  {
    if data == [] then []
    else if |data| == 1 then [data[0] as int]
    else [data[0] as int + 256 * data[1] as int] + Words(data[2..])
  }

  lemma {:induction false} WordSumFront(w: U16, ws: seq<U16>)
    ensures WordSum([w] + ws) == w + WordSum(ws)
  {
    if ws != [] {
      var n := |ws| - 1;
      assert ([w] + ws)[..n + 1] == [w] + ws[..n];
      WordSumFront(w, ws[..n]);
    }
  }

  /** csum_continue. */
  method CsumContinue(partial: U32, data: seq<Byte>) returns (r: U32)
    ensures r == (partial + WordSum(Words(data))) % 0x1_0000_0000
  {
    hide WordSum, Words, CsumAdd16;
    r := partial;
    ghost var total: nat := partial;
    var i, n := 0, |data|;
    assert data[0..] == data;
    while n > 1
      invariant 0 <= i && 0 <= n && i + n == |data|
      invariant r == total % 0x1_0000_0000
      invariant total + WordSum(Words(data[i..])) == partial + WordSum(Words(data))
    {
      WordSumStep(data, i);
      var w: U16 := data[i] as int + 256 * data[i + 1] as int;
      AddModulo(r, total, w);
      r := CsumAdd16(r, w);
      total := total + w;
      i, n := i + 2, n - 2;
    }
    WordSumEnd(data, i);
    if n != 0 {
      AddModulo(r, total, data[i] as int);
      r := CsumAdd16(r, data[i] as int);
    }
  }

  lemma AddModulo(r: U32, total: nat, w: U16)
    requires r == total % 0x1_0000_0000
    ensures CsumAdd16(r, w) == (total + w) % 0x1_0000_0000
  {}

  lemma WordSumStep(data: seq<Byte>, i: nat)
    requires i + 1 < |data|
    ensures WordSum(Words(data[i..])) == data[i] as int + 256 * data[i + 1] as int + WordSum(Words(data[i + 2..]))
  {
    var rest := data[i..];
    assert rest[2..] == data[i + 2..];
    WordSumFront(rest[0] as int + 256 * rest[1] as int, Words(rest[2..]));
  }

  lemma WordSumEnd(data: seq<Byte>, i: nat)
    requires |data| - 1 <= i <= |data|
    ensures WordSum(Words(data[i..])) == if i < |data| then data[i] as int else 0
  {
    if i < |data| {
      assert data[i..] == [data[i]];
      WordSumFront(data[i] as int, []);
    }
  }

  /** csum(): the Internet checksum, as long as 32 bits hold the sum. */
  method CsumOf(data: seq<Byte>) returns (r: U16)
    ensures |data| <= 2 * 65537 ==> r == Checksum(Words(data))
  {
    var partial := CsumContinue(0, data);
    r := CsumFinish(partial);
    WordSumBound(Words(data));
    OnesSumFolds(Words(data));
  }

  function RecalcSum(oldCsum: U16, oldWord: U16, newWord: U16): U32 {
    Complement(oldCsum) + Complement(oldWord) + newWord
  }

  function Recalc16(oldCsum: U16, oldWord: U16, newWord: U16): U16 {
    Complement(Fold(RecalcSum(oldCsum, oldWord, newWord)))
  }

  /** recalc_csum16. */
  method RecalcCsum16(oldCsum: U16, oldWord: U16, newWord: U16) returns (r: U16)
    ensures r == RecalcAll(oldCsum, [oldWord], [newWord])
  {
    r := CsumFinish(RecalcSum(oldCsum, oldWord, newWord));
  }

  /** recalc_csum32. */
  method RecalcCsum32(oldCsum: U16, oldField: U32, newField: U32) returns (r: U16)
    ensures r == RecalcAll(oldCsum, Halves([oldField]), Halves([newField]))
  {
    r := RecalcCsum16(oldCsum, oldField % 0x1_0000, newField % 0x1_0000);
    r := RecalcCsum16(r, oldField / 0x1_0000, newField / 0x1_0000);
    HalvesStep(oldCsum, [oldField], [newField]);
  }

  /** recalc_csum128, on four 32-bit fields. */
  method RecalcCsum128(oldCsum: U16, oldFields: seq<U32>, newFields: seq<U32>) returns (r: U16)
    requires |oldFields| == |newFields| == 4
    ensures r == RecalcAll(oldCsum, Halves(oldFields), Halves(newFields))
  {
    r := oldCsum;
    for i := 0 to 4
      invariant RecalcAll(r, Halves(oldFields[i..]), Halves(newFields[i..])) ==
                RecalcAll(oldCsum, Halves(oldFields), Halves(newFields))
    {
      HalvesStep(r, oldFields[i..], newFields[i..]);
      HalvesStep(r, [oldFields[i]], [newFields[i]]);
      assert oldFields[i..][1..] == oldFields[i + 1..] && newFields[i..][1..] == newFields[i + 1..];
      r := RecalcCsum32(r, oldFields[i], newFields[i]);
    }
  }

  /** The words of 32-bit fields, the low half first. */
  function Halves(fields: seq<U32>): (ws: seq<U16>)
    ensures |ws| == 2 * |fields|
  {
    if fields == [] then [] else [fields[0] % 0x1_0000, fields[0] / 0x1_0000] + Halves(fields[1..])
  }

  /** Updating a checksum for one word after another. */
  function RecalcAll(c: U16, olds: seq<U16>, news: seq<U16>): U16
    requires |olds| == |news|
    decreases |olds|
  {
    if olds == [] then c else RecalcAll(Recalc16(c, olds[0], news[0]), olds[1..], news[1..])
  }

  lemma HalvesStep(c: U16, olds: seq<U32>, news: seq<U32>)
    requires |olds| == |news| > 0
    ensures var low := Recalc16(c, olds[0] % 0x1_0000, news[0] % 0x1_0000);
            RecalcAll(c, Halves(olds), Halves(news)) ==
            RecalcAll(Recalc16(low, olds[0] / 0x1_0000, news[0] / 0x1_0000), Halves(olds[1..]), Halves(news[1..]))
  {
    var a, b := Halves(olds), Halves(news);
    assert a[1..][1..] == Halves(olds[1..]) && b[1..][1..] == Halves(news[1..]);
  }

  // ---------------------------------------------------------------------
  // The incremental update against the checksum of the changed data

  /** `c` is a checksum of data with plain sum `s`, either zero being allowed when `s` is 0. */
  ghost predicate Represents(c: U16, s: nat) {
    Complement(c) % M == s % M && (c == M ==> s == 0)
  }

  /** One update keeps the representation and never gives the checksum of all-zero data. */
  lemma RecalcRepresents(c: U16, s: nat, oldWord: U16, newWord: U16)
    requires Represents(c, s) && oldWord <= s
    ensures Represents(Recalc16(c, oldWord, newWord), s - oldWord + newWord)
    ensures Recalc16(c, oldWord, newWord) < M
  {
    var sum := RecalcSum(c, oldWord, newWord);
    var now := s - oldWord + newWord;
    assert sum > 0;
    FoldResidue(sum);
    SameResidue(Complement(c), s, oldWord, newWord);
  }

  lemma SameResidue(a: nat, s: nat, oldWord: U16, newWord: U16)
    requires a % M == s % M && oldWord <= s
    ensures (a + Complement(oldWord) + newWord) % M == (s - oldWord + newWord) % M
  {
    AddMultiple(s - oldWord + newWord, 1);
    var d := Complement(oldWord) + newWord;
    assert s - oldWord + newWord + M == s + d;
    assert (a + d) % M == (s + d) % M;
  }

  lemma {:induction false} WordSumSplits(a: seq<U16>, b: seq<U16>)
    ensures WordSum(a + b) == WordSum(a) + WordSum(b)
  {
    if b == [] {
      assert a + b == a;
    } else {
      var n := |b| - 1;
      assert (a + b)[..|a| + n] == a + b[..n];
      WordSumSplits(a, b[..n]);
    }
  }

  lemma {:induction false} RecalcAllRepresents(c: U16, s: nat, olds: seq<U16>, news: seq<U16>)
    requires |olds| == |news| && Represents(c, s) && WordSum(olds) <= s
    ensures Represents(RecalcAll(c, olds, news), s - WordSum(olds) + WordSum(news))
    ensures olds != [] ==> RecalcAll(c, olds, news) < M
    decreases |olds|
  {
    if olds != [] {
      assert olds == [olds[0]] + olds[1..] && news == [news[0]] + news[1..];
      WordSumFront(olds[0], olds[1..]);
      WordSumFront(news[0], news[1..]);
      RecalcRepresents(c, s, olds[0], news[0]);
      RecalcAllRepresents(Recalc16(c, olds[0], news[0]), s - olds[0] + news[0], olds[1..], news[1..]);
    }
  }

  lemma {:induction false} ZeroSum(ws: seq<U16>)
    ensures WordSum(ws) == 0 <==> forall i | 0 <= i < |ws| :: ws[i] == 0
  {
    if ws != [] {
      ZeroSum(ws[..|ws| - 1]);
    }
  }

  /** Updating the checksum of some data for words replaced in it gives the
   * checksum of the changed data exactly when that is not all zero. */
  lemma IncrementalUpdate(front: seq<U16>, olds: seq<U16>, news: seq<U16>, back: seq<U16>)
    requires |olds| == |news| > 0
    ensures var changed := front + news + back;
            RecalcAll(Checksum(front + olds + back), olds, news) == Checksum(changed)
            <==> !(forall i | 0 <= i < |changed| :: changed[i] == 0)
  {
    var data, changed := front + olds + back, front + news + back;
    var s, now := WordSum(data), WordSum(changed);
    WordSumSplits(front + olds, back);
    WordSumSplits(front, olds);
    WordSumSplits(front + news, back);
    WordSumSplits(front, news);
    OnesSumFolds(data);
    OnesSumFolds(changed);
    FoldResidue(s);
    FoldResidue(now);
    RecalcAllRepresents(Checksum(data), s, olds, news);
    ZeroSum(changed);
    var c := RecalcAll(Checksum(data), olds, news);
    if now > 0 {
      FoldByResidue(now, Complement(c));
    }
  }

  /** One word set to zero, alone: the update gives 0, the other zero of the checksum 0xffff of the changed data. */
  lemma UpdateToZero()
    ensures RecalcAll(Checksum([1]), [1], [0]) == 0 && Checksum([0]) == 0xffff
  {
    assert [1][..0] == [] && [0][..0] == [];
    assert OnesSum([1]) == 1 && OnesSum([0]) == 0;
    var once := Recalc16(Checksum([1]), 1, 0);
    assert [1][1..] == [] && [0][1..] == [];
    assert RecalcAll(Checksum([1]), [1], [0]) == RecalcAll(once, [], []) == once;
  }
}
