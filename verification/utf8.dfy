/** UTF-8 text and its truncation at a byte limit. Encodings follow section 3 of RFC 3629. */
module Utf8 {
  type Byte = n: int | 0 <= n < 0x100

  /** A Unicode scalar value: a code point that is not a surrogate. */
  type Scalar = n: int | 0 <= n < 0x11_0000 && !(0xD800 <= n < 0xE000)

  type Text = seq<Scalar>

  function EncodeScalar(c: Scalar): (r: seq<Byte>)
    ensures 1 <= |r| <= 4
    ensures !IsContinuation(r[0])
    ensures forall i :: 1 <= i < |r| ==> IsContinuation(r[i])
  {
    if c < 0x80 then [c]
    else if c < 0x800 then [0xC0 + c / 64, 0x80 + c % 64]
    else if c < 0x1_0000 then [0xE0 + c / 4096, 0x80 + c / 64 % 64, 0x80 + c % 64]
    else [0xF0 + c / 262144, 0x80 + c / 4096 % 64, 0x80 + c / 64 % 64, 0x80 + c % 64]
  }

  /** The scalar that the bits of one to four bytes make up, most significant first. */
  function Bits(r: seq<Byte>): int {
    if |r| == 1 then r[0] as int
    else if |r| == 2 then (r[0] as int - 0xC0) * 64 + (r[1] as int - 0x80)
    else if |r| == 3 then ((r[0] as int - 0xE0) * 64 + (r[1] as int - 0x80)) * 64 + (r[2] as int - 0x80)
    else if |r| == 4 then
      (((r[0] as int - 0xF0) * 64 + (r[1] as int - 0x80)) * 64 + (r[2] as int - 0x80)) * 64 + (r[3] as int - 0x80)
    else 0
  }

  /** The table of section 3 of RFC 3629: the size of the scalar gives the number of bytes, the first
      byte tells it, and the remaining bits make up the scalar. */
  lemma ScalarBits(c: Scalar)
    ensures var r := EncodeScalar(c);
      && Bits(r) == c
      && |r| == (if c <= 0x7F then 1 else if c <= 0x7FF then 2 else if c <= 0xFFFF then 3 else 4)
      && (|r| == 1 <==> r[0] <= 0x7F) && (|r| == 2 <==> 0xC2 <= r[0] <= 0xDF)
      && (|r| == 3 <==> 0xE0 <= r[0] <= 0xEF) && (|r| == 4 <==> 0xF0 <= r[0] <= 0xF4)
  {
    var x := c as int;
    var y := x / 64;
    var z := y / 64;
    assert x == y * 64 + x % 64 && y == z * 64 + y % 64 && z == z / 64 * 64 + z % 64;
    assert x / 4096 == z && x / 262144 == z / 64;
  }

  predicate IsContinuation(b: Byte) {
    0x80 <= b < 0xC0
  }

  function Encode(text: Text): seq<Byte> {
    if text == [] then []
    else Encode(text[..|text|-1]) + EncodeScalar(text[|text|-1])
  }

  /** The byte offset of the k-th scalar. */
  function Offset(text: Text, k: nat): nat
    requires k <= |text|
  {
    |Encode(text[..k])|
  }

  predicate IsCharBoundary(bytes: seq<Byte>, i: nat) {
    i == 0 || i == |bytes| || (i < |bytes| && !IsContinuation(bytes[i]))
  }

  lemma EncodeStep(text: Text, k: nat)
    requires k < |text|
    ensures Encode(text[..k+1]) == Encode(text[..k]) + EncodeScalar(text[k])
  {
    assert text[..k+1][..k] == text[..k];
  }

  lemma {:induction false} EncodePrefix(text: Text, k: nat)
    requires k <= |text|
    ensures Encode(text[..k]) <= Encode(text)
    ensures k < |text| ==> Offset(text, k) < |Encode(text)|
    decreases |text| - k
  {
    if k == |text| {
      assert text[..k] == text;
    } else {
      EncodePrefix(text, k + 1);
      EncodeStep(text, k);
    }
  }

  lemma {:induction false} OffsetMonotone(text: Text, j: nat, k: nat)
    requires j < k <= |text|
    ensures Offset(text, j) < Offset(text, k)
  {
    EncodeStep(text, k - 1);
    if j < k - 1 {
      OffsetMonotone(text, j, k - 1);
    }
  }

  /** The boundaries of the bytes are exactly the offsets of the scalars. */
  lemma {:induction false} BoundaryIsOffset(text: Text, i: nat) returns (k: nat)
    requires i <= |Encode(text)| && IsCharBoundary(Encode(text), i)
    ensures k <= |text| && i == Offset(text, k)
  {
    if i == |Encode(text)| {
      k := |text|;
      assert text[..k] == text;
    } else {
      var n := |text| - 1;
      var front := text[..n];
      var all := Encode(text);
      assert all == Encode(front) + EncodeScalar(text[n]);
      assert forall j :: |Encode(front)| < j < |all| ==> IsContinuation(all[j]);
      k := BoundaryIsOffset(front, i);
      assert front[..k] == text[..k];
    }
  }

  lemma OffsetIsBoundary(text: Text, k: nat)
    requires k <= |text|
    ensures IsCharBoundary(Encode(text), Offset(text, k))
  {
    if k == |text| {
      assert text[..k] == text;
    } else {
      EncodeStep(text, k);
      EncodePrefix(text, k + 1);
      hide Encode, EncodeScalar, IsContinuation, IsCharBoundary;
      var front, next, all := Encode(text[..k]), EncodeScalar(text[k]), Encode(text);
      assert front + next <= all;
      ByteAt(front, next, all);
    }
  }

  lemma ByteAt(front: seq<Byte>, next: seq<Byte>, all: seq<Byte>)
    requires next != [] && !IsContinuation(next[0]) && front + next <= all
    ensures IsCharBoundary(all, |front|)
  {
    assert (front + next)[|front|] == next[0];
  }

  /** How many leading scalars fit into `max` bytes. */
  function Fitting(text: Text, max: nat): (k: nat)
    ensures k <= |text|
  {
    if |Encode(text)| <= max then |text| else Fitting(text[..|text|-1], max)
  }

  /** `Fitting` is the longest prefix that fits. */
  lemma {:induction false} FittingIsLongest(text: Text, max: nat, k: nat)
    requires k <= |text|
    ensures Offset(text, k) <= max <==> k <= Fitting(text, max)
  {
    if |Encode(text)| <= max {
      EncodePrefix(text, k);
    } else {
      var n := |text| - 1;
      assert text[..|text|] == text;
      if k <= n {
        FittingIsLongest(text[..n], max, k);
        assert text[..n][..k] == text[..k];
      }
    }
  }

  /** Cuts the encoding of `text` down to at most `max` bytes. What is left is the encoding
      of the longest prefix of the same text that fits; `truncated` says whether anything was
      cut, and then at most three bytes below the limit are lost. */
  method TruncateUtf8(bytes: seq<Byte>, max: nat, ghost text: Text) returns (kept: seq<Byte>, truncated: bool)
    requires bytes == Encode(text)
    ensures kept == Encode(text[..Fitting(text, max)])
    ensures |kept| <= max
    ensures truncated <==> kept != bytes
    ensures truncated <==> |bytes| > max
    ensures truncated ==> |kept| + 3 >= max
  {
    if |bytes| <= max {
      assert text[..|text|] == text;
      return bytes, false;
    }
    var boundary: nat := max;
    while boundary > 0 && !IsCharBoundary(bytes, boundary)
      invariant boundary <= max
      invariant forall i: nat :: boundary < i <= max ==> !IsCharBoundary(bytes, i)
    {
      boundary := boundary - 1;
    }
    ghost var k := BoundaryIsOffset(text, boundary);
    NextDoesNotFit(text, max, boundary, k);
    EncodePrefix(text, k);
    kept, truncated := bytes[..boundary], true;
  }

  lemma NextDoesNotFit(text: Text, max: nat, boundary: nat, k: nat)
    requires boundary <= max < |Encode(text)|
    requires k <= |text| && boundary == Offset(text, k)
    requires forall i: nat :: boundary < i <= max ==> !IsCharBoundary(Encode(text), i)
    ensures k == Fitting(text, max) && boundary + 3 >= max
  {
    assert text[..|text|] == text;
    assert k < |text|;
    OffsetIsBoundary(text, k + 1);
    OffsetMonotone(text, k, k + 1);
    EncodeStep(text, k);
    FittingIsLongest(text, max, k);
    FittingIsLongest(text, max, k + 1);
  }
}
