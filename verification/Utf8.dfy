/** Lengths and cuts of strings in bytes of their UTF-8 form. */
module Utf8 {
  const REPLACEMENT: char := '\U{FFFD}'

  function Width(c: char): nat {
    if c < '\U{0080}' then 1 else if c < '\U{0800}' then 2 else if c < '\U{10000}' then 3 else 4
  }

  /** The UTF-8 form of a character, and what it stands for. */
  function Encode(c: char): (b: seq<int>)
    ensures |b| == Width(c)
  {
    var n := c as int;
    var high := n / 0x40;
    var higher := high / 0x40;
    if Width(c) == 1 then [n]
    else if Width(c) == 2 then [0xC0 + high, 0x80 + n % 0x40]
    else if Width(c) == 3 then [0xE0 + higher, 0x80 + high % 0x40, 0x80 + n % 0x40]
    else [0xF0 + higher / 0x40, 0x80 + higher % 0x40, 0x80 + high % 0x40, 0x80 + n % 0x40]
  }

  function Decode(b: seq<int>): int
    requires 1 <= |b| <= 4
  {
    match |b|
    case 1 => b[0]
    case 2 => (b[0] - 0xC0) * 0x40 + (b[1] - 0x80)
    case 3 => (b[0] - 0xE0) * 0x1000 + (b[1] - 0x80) * 0x40 + (b[2] - 0x80)
    case _ => (b[0] - 0xF0) * 0x40000 + (b[1] - 0x80) * 0x1000 + (b[2] - 0x80) * 0x40 + (b[3] - 0x80)
  }

  /** Every character is encoded in as many bytes as it is wide, each of the range UTF-8 prescribes, and
      can be read back. */
  lemma EncodeThenDecode(c: char)
    ensures Decode(Encode(c)) == c as int
    ensures |Encode(c)| == 1 <==> Encode(c)[0] < 0x80
    ensures |Encode(c)| == 2 ==> 0xC2 <= Encode(c)[0] < 0xE0
    ensures |Encode(c)| == 3 ==> 0xE0 <= Encode(c)[0] < 0xF0 && (Encode(c)[0] == 0xE0 ==> Encode(c)[1] >= 0xA0)
    ensures |Encode(c)| == 4 ==> 0xF0 <= Encode(c)[0] < 0xF5 && (Encode(c)[0] == 0xF0 ==> Encode(c)[1] >= 0x90)
    ensures forall i | 1 <= i < |Encode(c)| :: 0x80 <= Encode(c)[i] < 0xC0
  {
  }

  function Bytes(s: string): nat {
    if s == "" then 0 else Width(s[0]) + Bytes(s[1..])
  }

  /** How many characters lie wholly within the first n bytes. */
  function Whole(s: string, n: int): (k: nat)
    ensures k <= |s|
  {
    if s == "" || n < Width(s[0]) then 0 else 1 + Whole(s[1..], n - Width(s[0]))
  }

  function Lost(n: int): string {
    if n <= 0 then "" else seq(n, _ => REPLACEMENT)
  }

  /** The first n bytes, as they are read back: each byte of a character cut in half reads as U+FFFD. */
  function ByteCut(s: string, n: int): string {
    s[..Whole(s, n)] + Lost(n - Bytes(s[..Whole(s, n)]))
  }

  lemma {:induction false} BytesConcat(a: string, b: string)
    ensures Bytes(a + b) == Bytes(a) + Bytes(b)
  {
    if a == "" {
      assert a + b == b;
    } else {
      BytesConcat(a[1..], b);
      assert (a + b)[1..] == a[1..] + b;
    }
  }

  lemma BytesSplit(s: string, k: nat)
    requires k <= |s|
    ensures Bytes(s) == Bytes(s[..k]) + Bytes(s[k..])
  {
    BytesConcat(s[..k], s[k..]);
    assert s == s[..k] + s[k..];
  }

  lemma {:induction false} AsciiBytes(s: string)
    requires forall i | 0 <= i < |s| :: s[i] < '\U{0080}'
    ensures Bytes(s) == |s|
  {
    if s == "" {
    } else {
      AsciiBytes(s[1..]);
    }
  }

  /** Characters that fit into n bytes are whole, and those that fill them are all. */
  lemma {:induction false} WholeAtLeast(s: string, k: nat, n: int)
    requires k <= |s| && Bytes(s[..k]) <= n
    ensures k <= Whole(s, n) && (Bytes(s[..k]) == n ==> Whole(s, n) == k)
  {
    if k == 0 {
    } else {
      assert s[..k][1..] == s[1..][..k - 1];
      WholeAtLeast(s[1..], k - 1, n - Width(s[0]));
    }
  }

  /** A cut after a whole character loses nothing. */
  lemma CutAfter(s: string, k: nat)
    requires k <= |s|
    ensures ByteCut(s, Bytes(s[..k])) == s[..k]
  {
    WholeAtLeast(s, k, Bytes(s[..k]));
  }

  lemma CutBegins(s: string, k: nat, n: int)
    requires k <= |s| && Bytes(s[..k]) <= n
    ensures k <= |ByteCut(s, n)| && ByteCut(s, n)[..k] == s[..k]
    ensures forall i | k <= i < |ByteCut(s, n)| :: ByteCut(s, n)[i] == REPLACEMENT || ByteCut(s, n)[i] in s[k..]
  {
    WholeAtLeast(s, k, n);
    CutParts(s, k, Whole(s, n), Lost(n - Bytes(s[..Whole(s, n)])), ByteCut(s, n));
  }

  lemma CutParts(s: string, k: nat, w: nat, lost: string, q: string)
    requires k <= w <= |s| && q == s[..w] + lost && forall i | 0 <= i < |lost| :: lost[i] == REPLACEMENT
    ensures k <= |q| && q[..k] == s[..k]
    ensures forall i | k <= i < |q| :: q[i] == REPLACEMENT || q[i] in s[k..]
  {
    forall i | k <= i < |q|
      ensures q[i] == REPLACEMENT || q[i] in s[k..]
    {
      assert if i < w then q[i] == s[k..][i - k] else q[i] == lost[i - w];
    }
  }

  /** A cut inside character k keeps the characters before it. */
  lemma {:induction false} CutInside(s: string, k: nat, n: int)
    requires k < |s| && Bytes(s[..k]) <= n < Bytes(s[..k]) + Width(s[k])
    ensures Whole(s, n) == k && ByteCut(s, n) == s[..k] + Lost(n - Bytes(s[..k]))
  {
    if k == 0 {
    } else {
      assert s[..k][1..] == s[1..][..k - 1];
      CutInside(s[1..], k - 1, n - Width(s[0]));
    }
  }
}
