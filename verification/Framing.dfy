/** Messages as bytes: every record is preceded by its length in four bytes. */
module Framing {

  type Byte = b: nat | b < 0x100

  const SIZE_BYTES: nat := 4

  /** A raw record; its length fits the four bytes. */
  type Raw = r: seq<Byte> | |r| < 0x1_0000_0000

  function PutSize(n: nat): (s: seq<Byte>)
    requires n < 0x1_0000_0000
    ensures |s| == SIZE_BYTES
  {
    [n % 0x100, n / 0x100 % 0x100, n / 0x1_0000 % 0x100, n / 0x100_0000]
  }

  function GetSize(s: seq<Byte>): (n: nat)
    requires |s| == SIZE_BYTES
    ensures n < 0x1_0000_0000
  {
    s[0] as nat + 0x100 * (s[1] as nat) + 0x1_0000 * (s[2] as nat) + 0x100_0000 * (s[3] as nat)
  }

  lemma SizeRoundTrip(n: nat)
    requires n < 0x1_0000_0000
    ensures GetSize(PutSize(n)) == n
  {
    assert n / 0x1_0000 == n / 0x100 / 0x100;
    assert n / 0x100_0000 == n / 0x1_0000 / 0x100;
  }

  function Frame(r: Raw): seq<Byte> {
    PutSize(|r|) + r
  }

  function Frames(rs: seq<Raw>): (s: seq<Byte>)
    ensures |s| == 0 <==> |rs| == 0
  {
    if |rs| == 0 then [] else Frame(rs[0]) + Frames(rs[1..])
  }

  lemma {:induction false} FramesAppend(a: seq<Raw>, b: seq<Raw>)
    ensures Frames(a + b) == Frames(a) + Frames(b)
  {
    if |a| == 0 {
      assert a + b == b;
    } else {
      assert (a + b)[1..] == a[1..] + b;
      FramesAppend(a[1..], b);
    }
  }

  lemma FramesGrow(a: seq<Raw>, r: Raw)
    ensures Frames(a + [r]) == Frames(a) + Frame(r)
  {
    FramesAppend(a, [r]);
    assert [r][1..] == [];
    assert Frames([r]) == Frame(r) + [];
  }

  /** The first record of a message can be read off its bytes. */
  lemma FirstFrame(rs: seq<Raw>)
    requires |rs| > 0
    ensures var s := Frames(rs);
      && |s| >= SIZE_BYTES && GetSize(s[..SIZE_BYTES]) == |rs[0]|
      && |s| >= SIZE_BYTES + |rs[0]|
      && s[SIZE_BYTES..SIZE_BYTES + |rs[0]|] == rs[0]
      && s[SIZE_BYTES + |rs[0]|..] == Frames(rs[1..])
  {
    var s := Frames(rs);
    SizeRoundTrip(|rs[0]|);
    assert s[..SIZE_BYTES] == PutSize(|rs[0]|);
  }

  /** No byte string is the framing of two different sequences of records. */
  lemma {:induction false} FramesInjective(a: seq<Raw>, b: seq<Raw>)
    requires Frames(a) == Frames(b)
    ensures a == b
  {
    if |a| > 0 {
      FirstFrame(a);
      FirstFrame(b);
      FramesInjective(a[1..], b[1..]);
      assert a == [a[0]] + a[1..] && b == [b[0]] + b[1..];
    }
  }

  // ----- the space left in a buffer is computed without a sign and passed on as an int

  function SizeT(x: int): int {
    x % 0x1_0000_0000_0000_0000
  }

  function CInt(x: int): int {
    (x + 0x8000_0000) % 0x1_0000_0000 - 0x8000_0000
  }

  /** The wrap-around of a negative difference is undone by the conversion. */
  lemma RemainingSurvives(x: int)
    requires -0x8000_0000 <= x < 0x8000_0000
    ensures CInt(SizeT(x)) == x
  {
    if x < 0 {
      assert SizeT(x) == x + 0x1_0000_0000_0000_0000;
      assert 0x1_0000_0000_0000_0000 == 0x1_0000_0000 * 0x1_0000_0000;
      assert (x + 0x8000_0000 + 0x1_0000_0000 * 0x1_0000_0000) % 0x1_0000_0000 == x + 0x8000_0000;
    }
  }
}
