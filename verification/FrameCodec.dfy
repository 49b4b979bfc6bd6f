/** The byte layout of a stored frame: low bytes first, then the high bytes of the
    words that have one. */
module FrameCodec {
  import opened Cells

  type Byte = b: int | 0 <= b < 256

  /** Words written without a high byte. */
  predicate IsShort(w: int) { w == 0 || w == 1 }

  /** The words a frame gives back: a word with a high byte must not have the low
      byte of a short one. */
  predicate Codable(w: Word) {
    w % 256 >= 2 || IsShort(w)
  }

  function Lows(v: seq<Word>): (s: seq<Byte>)
    ensures |s| == |v|
  {
    seq(|v|, i requires 0 <= i < |v| => v[i] % 256)
  }

  function Highs(v: seq<Word>): (s: seq<Byte>)
    ensures |s| <= |v|
  {
    if v == [] then []
    else Highs(v[..|v| - 1]) + if IsShort(v[|v| - 1]) then [] else [v[|v| - 1] / 256]
  }

  function Zeros(n: nat): seq<Byte> { seq(n, _ => 0) }

  function Transposed(v: seq<Word>): seq<Byte> {
    Lows(v) + Highs(v) + Zeros(|v| - |Highs(v)|)
  }

  /** Where the next high byte is read after `i` words. */
  function Cursor(t: seq<Byte>, n: nat, i: nat): (j: nat)
    requires i <= n <= |t|
    ensures j <= n + i
  {
    if i == 0 then n else Cursor(t, n, i - 1) + if IsShort(t[i - 1]) then 0 else 1
  }

  function FromBytes(low: int, high: int): Word
    requires 0 <= low < 256 && 0 <= high < 256
  {
    low + 256 * high
  }

  function WordAt(t: seq<Byte>, n: nat, i: nat): Word
    requires i < n && 2 * n <= |t|
  {
    if IsShort(t[i]) then t[i] else FromBytes(t[i], t[Cursor(t, n, i)])
  }

  function Detransposed(t: seq<Byte>, n: nat): (v: seq<Word>)
    requires 2 * n <= |t|
    ensures |v| == n
  {
    seq(n, i requires 0 <= i < n => WordAt(t, n, i))
  }

  /** Writes the low bytes from the front and the high bytes from the middle. */
  method TransposeFrame(v: array<Word>) returns (output: array<Byte>)
    ensures fresh(output) && output[..] == Transposed(v[..])
  {
    hide Highs;
    var n := v.Length;
    output := new Byte[2 * n](_ => 0);
    var j := n;
    NoHighs(v[..0]);
    for i := 0 to n
      invariant n <= j == n + |Highs(v[..i])| <= n + i
      invariant forall k | 0 <= k < i :: output[k] == v[k] % 256
      invariant forall k | 0 <= k < j - n :: output[n + k] == Highs(v[..i])[k]
      invariant forall k | j <= k < 2 * n :: output[k] == 0
    {
      NextHigh(v[..], i);
      assert v[..][..i] == v[..i] && v[..][..i + 1] == v[..i + 1];
      if v[i] == 0 || v[i] == 1 {
        output[i] := v[i];
      } else {
        output[i] := v[i] % 256;
        output[j] := v[i] / 256;
        j := j + 1;
      }
    }
    Assemble(v[..], output[..], j);
  }

  lemma NoHighs(v: seq<Word>)
    requires v == []
    ensures Highs(v) == []
  {
  }

  lemma NextHigh(v: seq<Word>, i: nat)
    requires i < |v|
    ensures Highs(v[..i + 1]) == Highs(v[..i]) + if IsShort(v[i]) then [] else [v[i] / 256]
  {
    assert v[..i + 1][..i] == v[..i];
  }

  lemma Assemble(v: seq<Word>, output: seq<Byte>, j: nat)
    requires |output| == 2 * |v| && j == |v| + |Highs(v[..|v|])|
    requires forall k | 0 <= k < |v| :: output[k] == v[k] % 256
    requires forall k | 0 <= k < j - |v| :: output[|v| + k] == Highs(v[..|v|])[k]
    requires forall k | j <= k < 2 * |v| :: output[k] == 0
    ensures output == Transposed(v)
  {
    assert v[..|v|] == v;
  }

  /** Reads a frame of `n` words back; the second cursor stays inside the buffer
      whatever the bytes are. */
  method DetransposeFrame(t: array<Byte>, n: nat) returns (output: array<Word>)
    requires 2 * n <= t.Length
    ensures fresh(output) && output[..] == Detransposed(t[..], n)
  {
    output := new Word[n](_ => 0);
    var j := n;
    for i := 0 to n
      invariant j == Cursor(t[..], n, i)
      invariant forall k | 0 <= k < i :: output[k] == WordAt(t[..], n, k)
    {
      if t[i] == 0 || t[i] == 1 {
        output[i] := t[i];
      } else {
        output[i] := FromBytes(t[i], t[j]);
        j := j + 1;
      }
    }
  }

  // ---------------------------------------------------------------------
  // The round trip.

  predicate AllCodable(v: seq<Word>) {
    forall i | 0 <= i < |v| :: Codable(v[i])
  }

  lemma {:induction false} CursorFollowsHighs(v: seq<Word>, i: nat)
    requires AllCodable(v) && i <= |v|
    ensures Cursor(Transposed(v), |v|, i) == |v| + |Highs(v[..i])|
  {
    if i > 0 {
      CursorFollowsHighs(v, i - 1);
      assert v[..i][..i - 1] == v[..i - 1];
      assert Transposed(v)[i - 1] == Lows(v)[i - 1];
    }
  }

  lemma {:induction false} HighsArePrefix(v: seq<Word>, i: nat)
    requires i <= |v|
    ensures Highs(v[..i]) <= Highs(v)
  {
    if i < |v| {
      HighsArePrefix(v[..|v| - 1], i);
      assert v[..|v| - 1][..i] == v[..i];
    } else {
      assert v[..i] == v;
    }
  }

  lemma HighAt(v: seq<Word>, i: nat)
    requires i < |v| && !IsShort(v[i])
    ensures |Highs(v[..i])| < |Highs(v)| && Highs(v)[|Highs(v[..i])|] == v[i] / 256
  {
    assert v[..i + 1][..i] == v[..i];
    HighsArePrefix(v, i + 1);
  }

  lemma WordIsRead(v: seq<Word>, i: nat)
    requires AllCodable(v) && i < |v|
    ensures WordAt(Transposed(v), |v|, i) == v[i]
  {
    assert Transposed(v)[i] == Lows(v)[i];
    if !IsShort(v[i]) {
      CursorFollowsHighs(v, i);
      HighAt(v, i);
      assert Transposed(v)[|v| + |Highs(v[..i])|] == v[i] / 256;
    }
  }

  /** A frame is read back exactly when all its words are codable. */
  lemma RoundTrip(v: seq<Word>)
    ensures Detransposed(Transposed(v), |v|) == v <==> AllCodable(v)
  {
    if AllCodable(v) {
      forall i | 0 <= i < |v| ensures Detransposed(Transposed(v), |v|)[i] == v[i] {
        WordIsRead(v, i);
      }
    } else {
      var i :| 0 <= i < |v| && !Codable(v[i]);
      assert Transposed(v)[i] == Lows(v)[i];
      assert Detransposed(Transposed(v), |v|)[i] != v[i];
    }
  }

  /** An unresolved cell survives unless its counter is a multiple of 32. */
  lemma UnknownsAreNotAlwaysCodable(counter: nat)
    requires Fits(Unknown(counter))
    ensures Codable(Pack(Unknown(counter))) <==> counter % 32 != 0
  {
    ShiftRoundTrip(counter);
    assert counter == 32 * (counter / 32) + counter % 32;
    assert counter * 8 == 256 * (counter / 32) + 8 * (counter % 32);
  }

  lemma ResolvedIsCodable(w: Word)
    requires w % 8 >= 2
    ensures Codable(w)
  {
    assert w % 256 % 8 == w % 8;
  }
}
