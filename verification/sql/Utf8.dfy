/** UTF-8 encoding of words (RFC 3629, section 3): different words have different bytes, and only U+0000 yields a zero. */
module Utf8 {
  import opened Bytes
  import opened IndexKeys
  import opened Tokenize

  const TAIL: Byte := 0x80

  function EncodeRune(r: Rune): (k: Key)
    ensures k != []
  {
    if r < 0x80 then [r]
    else if r < 0x800 then [0xC0 + r / 64, TAIL + r % 64]
    else if r < 0x1_0000 then [0xE0 + r / 4096, TAIL + r / 64 % 64, TAIL + r % 64]
    else [0xF0 + r / 26_2144, TAIL + r / 4096 % 64, TAIL + r / 64 % 64, TAIL + r % 64]
  }

  function EncodeWord(w: Word): Key {
    if w == [] then [] else EncodeRune(w[0]) + EncodeWord(w[1..])
  }

  /** The first byte tells how many there are, and the bytes tell the rune. */
  lemma RuneTold(a: Rune, x: Key, b: Rune, y: Key)
    requires EncodeRune(a) + x == EncodeRune(b) + y
    ensures a == b && x == y
  {
    var p, q := EncodeRune(a) + x, EncodeRune(b) + y;
    assert p[0] == EncodeRune(a)[0] && q[0] == EncodeRune(b)[0];
    assert |EncodeRune(a)| == |EncodeRune(b)|;
    var n := |EncodeRune(a)|;
    assert forall i | 0 <= i < n :: p[i] == EncodeRune(a)[i] && q[i] == EncodeRune(b)[i];
    assert x == p[n..] && y == q[n..];
    RuneFromBytes(a);
    RuneFromBytes(b);
  }

  lemma RuneFromBytes(r: Rune)
    ensures var k := EncodeRune(r);
            r == match |k|
                 case 1 => k[0]
                 case 2 => (k[0] - 0xC0) * 64 + (k[1] - TAIL)
                 case 3 => (k[0] - 0xE0) * 4096 + (k[1] - TAIL) * 64 + (k[2] - TAIL)
                 case _ => (k[0] - 0xF0) * 26_2144 + (k[1] - TAIL) * 4096 + (k[2] - TAIL) * 64 + (k[3] - TAIL)
  {
    assert r / 4096 == r / 64 / 64 && r / 26_2144 == r / 4096 / 64;
  }

  lemma {:induction false} WordTold(a: Word, b: Word)
    requires EncodeWord(a) == EncodeWord(b)
    ensures a == b
  {
    if a != [] && b != [] {
      RuneTold(a[0], EncodeWord(a[1..]), b[0], EncodeWord(b[1..]));
      WordTold(a[1..], b[1..]);
      assert a == [a[0]] + a[1..] && b == [b[0]] + b[1..];
    }
  }

  lemma {:induction false} NoZeroByte(w: Word)
    requires forall i | 0 <= i < |w| :: w[i] != 0
    ensures NoZero(EncodeWord(w)) && (w != [] ==> EncodeWord(w) != [])
  {
    if w != [] {
      NoZeroByte(w[1..]);
    }
  }
}
