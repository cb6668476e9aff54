/** Text to bits and back: one character '0' or '1' for each bit, highest bit first. */
module BitCodec {

  // The bit of weight 128, 64, ..., 1; none behind the eighth.
  function Mask(j: nat): bv8 {
    match j
    case 0 => 0x80
    case 1 => 0x40
    case 2 => 0x20
    case 3 => 0x10
    case 4 => 0x08
    case 5 => 0x04
    case 6 => 0x02
    case 7 => 0x01
    case _ => 0
  }

  predicate Bit(c: bv8, j: nat) {
    c & Mask(j) != 0
  }

  function CharUnder(c: bv8, mask: bv8): char {
    if c & mask != 0 then '1' else '0'
  }

  function BitChar(c: bv8, j: nat): char {
    CharUnder(c, Mask(j))
  }

  // What encoding a string means, position by position.
  ghost predicate Encodes(bits: string, s: seq<bv8>) {
    && |bits| == 8 * |s|
    && forall i, j | 0 <= i < |s| && 0 <= j < 8 :: bits[8 * i + j] == BitChar(s[i], j)
  }

  // The bits are those of s; any character but '1' stands for a zero, and so does the terminator behind
  // the last character.
  ghost predicate Decodes(bits: string, s: seq<bv8>) {
    && 8 * |s| - 1 <= |bits| <= 8 * |s|
    && forall i, j | 0 <= i < |s| && 0 <= j < 8 :: Bit(s[i], j) <==> (8 * i + j < |bits| && bits[8 * i + j] == '1')
  }

  // Halving the mask moves it to the next bit; behind the eighth it is gone.
  lemma MaskMoves(j: nat)
    requires j < 8
    ensures Mask(j) != 0 && Mask(j) >> 1 == Mask(j + 1)
  {
    match j
    case 0 | 1 | 2 | 3 =>
    case _ =>
  }

  // The inner loop: one byte, highest bit first.
  method ByteToBinary(c: bv8) returns (bits: string)
    ensures |bits| == 8 && forall j | 0 <= j < 8 :: bits[j] == BitChar(c, j)
  {
    bits := "";
    var mask: bv8 := 0x80;
    ghost var j := 0;
    while mask != 0
      invariant j <= 8 && |bits| == j && mask == Mask(j)
      invariant forall k | 0 <= k < j :: bits[k] == BitChar(c, k)
      decreases 8 - j
    {
      assert j != 8;
      MaskMoves(j);
      bits := bits + [CharUnder(c, mask)];
      mask := mask >> 1;
      j := j + 1;
    }
    if j < 8 {
      MaskMoves(j);
    }
  }

  lemma EncodesMore(bits: string, s: seq<bv8>, more: string, c: bv8)
    requires Encodes(bits, s) && |more| == 8 && forall j | 0 <= j < 8 :: more[j] == BitChar(c, j)
    ensures Encodes(bits + more, s + [c])
  {
  }

  method StringToBinary(s: seq<bv8>) returns (result: string)
    ensures Encodes(result, s)
  {
    result := "";
    for i := 0 to |s|
      invariant Encodes(result, s[..i])
    {
      var bits := ByteToBinary(s[i]);
      EncodesMore(result, s[..i], bits, s[i]);
      assert s[..i + 1] == s[..i] + [s[i]];
      result := result + bits;
    }
    assert s[..|s|] == s;
  }

  lemma OrMask(c: bv8, j: nat, k: nat)
    requires j < 8 && k < 8
    ensures Bit(c | Mask(j), k) <==> (j == k || Bit(c, k))
  {
  }

  // str[str.length()] is the terminator; one character further on would be outside the string.
  method BinaryToString(bits: string) returns (result: seq<bv8>)
    requires |bits| % 8 == 0 || |bits| % 8 == 7
    ensures Decodes(bits, result)
  {
    result := [];
    var i := 0;
    while i < |bits|
      invariant i == 8 * |result| <= |bits| + 1
      invariant forall p, k | 0 <= p < |result| && 0 <= k < 8 ::
                  Bit(result[p], k) <==> (8 * p + k < |bits| && bits[8 * p + k] == '1')
    {
      var c: bv8 := 0;
      for j := 0 to 8
        invariant forall k | 0 <= k < 8 :: Bit(c, k) <==> (k < j && i + k < |bits| && bits[i + k] == '1')
      {
        ghost var before := c;
        if i + j < |bits| && bits[i + j] == '1' {
          c := c | Mask(j);
          forall k | 0 <= k < 8 ensures Bit(c, k) <==> (j == k || Bit(before, k)) {
            OrMask(before, j, k);
          }
        }
      }
      result := result + [c];
      i := i + 8;
    }
  }

  // A byte is its eight bits.
  lemma SameBits(c: bv8, d: bv8)
    requires forall j | 0 <= j < 8 :: Bit(c, j) == Bit(d, j)
    ensures c == d
  {
    assert Bit(c, 0) == Bit(d, 0) && Bit(c, 1) == Bit(d, 1) && Bit(c, 2) == Bit(d, 2) && Bit(c, 3) == Bit(d, 3);
    assert Bit(c, 4) == Bit(d, 4) && Bit(c, 5) == Bit(d, 5) && Bit(c, 6) == Bit(d, 6) && Bit(c, 7) == Bit(d, 7);
  }

  // Decoding what was encoded gives the string back, whatever its bytes.
  lemma DecodeAfterEncode(s: seq<bv8>, bits: string, t: seq<bv8>)
    requires Encodes(bits, s) && Decodes(bits, t)
    ensures t == s
  {
    forall i | 0 <= i < |s| ensures s[i] == t[i] {
      forall j | 0 <= j < 8 ensures Bit(s[i], j) == Bit(t[i], j) {
        assert bits[8 * i + j] == BitChar(s[i], j);
      }
      SameBits(s[i], t[i]);
    }
  }

  // Encoding what was decoded gives the bits back with every character but '1' turned into '0', and a zero
  // for a missing eighth bit; so whole bytes of zeros and ones come back as they are.
  lemma EncodeAfterDecode(bits: string, s: seq<bv8>, again: string)
    requires Decodes(bits, s) && Encodes(again, s)
    ensures |again| == 8 * |s|
    ensures forall n | 0 <= n < |again| :: again[n] == if n < |bits| && bits[n] == '1' then '1' else '0'
    ensures again == bits <==> |bits| % 8 == 0 && forall n | 0 <= n < |bits| :: bits[n] == '0' || bits[n] == '1'
  {
    forall n | 0 <= n < |again| ensures again[n] == if n < |bits| && bits[n] == '1' then '1' else '0' {
      assert n == 8 * (n / 8) + n % 8;
      assert again[8 * (n / 8) + n % 8] == BitChar(s[n / 8], n % 8);
      assert again[n] == if Bit(s[n / 8], n % 8) then '1' else '0';
    }
  }
}
