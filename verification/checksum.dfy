/**
 * The per-file byte-sum computed by the checksum task of the context-menu
 * command: every byte of the file is read into a `char`, converted to
 * `unsigned int` and added to a 32-bit unsigned accumulator that starts at 0.
 * The compiler of the extension has a signed `char`, so bytes 0x80..0xFF are
 * sign-extended by the conversion.
 */
module Checksum {

  /** 2^32: `unsigned int` arithmetic wraps modulo this. */
  const Modulus: nat := 0x1_0000_0000

  type Byte = b: int | 0 <= b < 256
  type U32 = x: int | 0 <= x < 0x1_0000_0000

  /** A file's content, read byte by byte in binary mode. */
  type Content = seq<Byte>

  /**
   * The files a checksum task can open, by path, with their contents. A path
   * that is not a key is a file that `std::fstream` fails to open.
   */
  type FileSystem = map<string, Content>

  /** `std::pair<unsigned int, std::wstring>`: a byte-sum and the full path it belongs to. */
  type Pair = (U32, string)

  /** The message of the `std::runtime_error` both checksum tasks throw when the file does not open. */
  const FileNotOpened: string := "(CheckSum::hashSum : File wasnt opened..."

  /** `(unsigned int)(char)b` with a signed 8-bit `char`. */
  function Widen(b: Byte): (w: U32)
    ensures b < 0x80 ==> w == b
    ensures b >= 0x80 ==> w == b - 256 + Modulus
    ensures w % 256 == b
  {
    if b < 0x80 then b else b + 0xFFFF_FF00
  }

  /** The value of byte `b` read as a signed `char`. */
  function SignedChar(b: Byte): (c: int)
    ensures -128 <= c < 128
  {
    if b < 0x80 then b else b - 256
  }

  /** The accumulator after every byte of `s` has been added, in order, with wrap-around. */
  function ByteSum(s: Content): U32
  {
    if s == [] then 0 else (ByteSum(s[..|s| - 1]) + Widen(s[|s| - 1])) % Modulus
  }

  /** The mathematical sum of the bytes of `s` read as signed characters. */
  function SignedTotal(s: Content): int
  {
    if s == [] then 0 else SignedTotal(s[..|s| - 1]) + SignedChar(s[|s| - 1])
  }

  /** Reducing one summand modulo 2^32 first does not change the residue of the sum. */
  lemma ModAddCongruent(a: int, c: int)
    ensures (a % Modulus + c) % Modulus == (a + c) % Modulus
  {
  }

  /** Adding 2^32 does not change the residue. */
  lemma AddModulus(x: int)
    ensures (x + Modulus) % Modulus == x % Modulus
  {
  }

  /**
   * The wrapped unsigned sum is the signed sum of the characters taken
   * modulo 2^32: sign extension and wrap-around together make each byte
   * 0x80..0xFF count as its negative `char` value.
   */
  lemma {:induction false} ByteSumIsSignedTotalMod(s: Content)
    ensures ByteSum(s) == SignedTotal(s) % Modulus
  {
    if s != [] {
      var init, last := s[..|s| - 1], s[|s| - 1];
      ByteSumIsSignedTotalMod(init);
      ModAddCongruent(SignedTotal(init), Widen(last));
      if last >= 0x80 {
        AddModulus(SignedTotal(init) + SignedChar(last));
      }
    }
  }

  /** The sum of a concatenation is the wrapped sum of the sums of the parts. */
  lemma {:induction false} ByteSumAppend(a: Content, b: Content)
    ensures ByteSum(a + b) == (ByteSum(a) + ByteSum(b)) % Modulus
  {
    ByteSumIsSignedTotalMod(a);
    ByteSumIsSignedTotalMod(b);
    ByteSumIsSignedTotalMod(a + b);
    SignedTotalAppend(a, b);
    ModAddCongruent(SignedTotal(a), ByteSum(b));
    ModAddCongruent(SignedTotal(b), SignedTotal(a));
  }

  lemma {:induction false} SignedTotalAppend(a: Content, b: Content)
    ensures SignedTotal(a + b) == SignedTotal(a) + SignedTotal(b)
  {
    if b != [] {
      var init := b[..|b| - 1];
      assert (a + b)[..|a + b| - 1] == a + init;
      SignedTotalAppend(a, init);
    } else {
      assert a + b == a;
    }
  }

  /** Small files: the sum starts at 0, and a high byte adds its sign-extended value. */
  lemma KnownSums()
    ensures ByteSum([]) == 0
    ensures ByteSum([1, 2, 3, 4]) == 10
    ensures ByteSum([0xFF]) == 0xFFFF_FFFF
    ensures ByteSum([0x80, 0x80]) == 0xFFFF_FF00
  {
    assert [1][..0] == [];
    assert ByteSum([1]) == 1;
    assert [1, 2][..1] == [1];
    assert ByteSum([1, 2]) == 3;
    assert [1, 2, 3][..2] == [1, 2];
    assert ByteSum([1, 2, 3]) == 6;
    assert [1, 2, 3, 4][..3] == [1, 2, 3];
    assert [0xFF][..0] == [];
    assert [0x80][..0] == [];
    assert ByteSum([0x80]) == 0xFFFF_FF80;
    assert [0x80, 0x80][..1] == [0x80];
  }

  /**
   * The read loop over an opened file: one byte at a time until the read
   * fails at the end, each byte widened and added to the accumulator.
   */
  method ReadSum(content: Content) returns (sum: U32)
    ensures sum == ByteSum(content)
  {
    sum := 0;
    var i := 0;
    while i < |content|
      invariant 0 <= i <= |content|
      invariant sum == ByteSum(content[..i])
    {
      assert content[..i + 1][..i] == content[..i];
      sum := (sum + Widen(content[i])) % Modulus;
      i := i + 1;
    }
    assert content[..i] == content;
  }
}
