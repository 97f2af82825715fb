/** Generated room ids: 32 random nibbles printed in hexadecimal with four dashes. */
module RoomIds {

  type Nibble = n: int | 0 <= n < 16

  const HEX: string := "0123456789abcdef"

  function Hex(draws: seq<Nibble>): string {
    seq(|draws|, i requires 0 <= i < |draws| => HEX[draws[i]])
  }

  function Dashed(group: seq<Nibble>, rest: string): string { Hex(group) + "-" + rest }

  /** The 8-4-4-4-12 layout of section 4 of RFC 9562 (layout only: no version or variant bits). */
  function Layout(draws: seq<Nibble>): string
    requires |draws| == 32
  {
    Dashed(draws[..8], Dashed(draws[8..12], Dashed(draws[12..16], Dashed(draws[16..20], Hex(draws[20..])))))
  }

  /** What the stream holds after `n` nibbles; a dash is only written together with the nibble after it. */
  ghost function Written(draws: seq<Nibble>, n: nat): string
    requires n <= |draws| == 32
  {
    if n <= 8 then Hex(draws[..n])
    else if n <= 12 then Hex(draws[..8]) + "-" + Hex(draws[8..n])
    else if n <= 16 then Hex(draws[..8]) + "-" + Hex(draws[8..12]) + "-" + Hex(draws[12..n])
    else if n <= 20 then
      Hex(draws[..8]) + "-" + Hex(draws[8..12]) + "-" + Hex(draws[12..16]) + "-" + Hex(draws[16..n])
    else
      Hex(draws[..8]) + "-" + Hex(draws[8..12]) + "-" + Hex(draws[12..16]) + "-" + Hex(draws[16..20]) + "-"
      + Hex(draws[20..n])
  }

  lemma HexSnoc(draws: seq<Nibble>, from: nat, n: nat)
    requires from <= n < |draws|
    ensures Hex(draws[from..n + 1]) == Hex(draws[from..n]) + [HEX[draws[n]]]
  {
  }

  /** One more nibble: its dash, if it opens a group, and its digit. */
  lemma WrittenNext(draws: seq<Nibble>, n: nat)
    requires n < |draws| == 32
    ensures Written(draws, n + 1)
         == Written(draws, n) + (if n in {8, 12, 16, 20} then "-" else "") + [HEX[draws[n]]]
  {
    HexSnoc(draws, if n < 8 then 0 else if n < 12 then 8 else if n < 16 then 12 else if n < 20 then 16 else 20, n);
  }

  lemma WrittenAll(draws: seq<Nibble>)
    requires |draws| == 32
    ensures Written(draws, 32) == Layout(draws)
  {
  }

  method GenerateRoomId(draws: seq<Nibble>) returns (id: string)
    requires |draws| == 32
    ensures id == Layout(draws)
  {
    id := "";
    for i := 0 to 32
      invariant id == Written(draws, i)
    {
      WrittenNext(draws, i);
      if i == 8 || i == 12 || i == 16 || i == 20 {
        id := id + "-";
      }
      id := id + [HEX[draws[i]]];
    }
    WrittenAll(draws);
  }

  function WithoutDashes(s: string): string {
    if s == "" then "" else (if s[0] == '-' then "" else [s[0]]) + WithoutDashes(s[1..])
  }

  lemma {:induction false} WithoutDashesConcat(a: string, b: string)
    ensures WithoutDashes(a + b) == WithoutDashes(a) + WithoutDashes(b)
  {
    if a == "" {
      assert a + b == b;
    } else {
      var head := if a[0] == '-' then "" else [a[0]];
      assert (a + b)[1..] == a[1..] + b;
      assert WithoutDashes(a + b) == head + WithoutDashes(a[1..] + b);
      WithoutDashesConcat(a[1..], b);
      assert head + (WithoutDashes(a[1..]) + WithoutDashes(b)) == (head + WithoutDashes(a[1..])) + WithoutDashes(b);
    }
  }

  lemma {:induction false} HexHasNoDashes(draws: seq<Nibble>)
    ensures WithoutDashes(Hex(draws)) == Hex(draws)
  {
    if draws != [] {
      HexHasNoDashes(draws[1..]);
      assert Hex(draws)[1..] == Hex(draws[1..]);
    }
  }

  /** The lower-case hexadecimal digit of a nibble. */
  lemma HexByValue(draw: Nibble)
    ensures HEX[draw] as int == if draw < 10 then '0' as int + draw else 'a' as int + draw - 10
  {
  }

  /** Reading on past a group and its dash. */
  lemma PastGroup(group: seq<Nibble>, rest: string, j: nat)
    requires j < |rest|
    ensures |group| + 1 + j < |Dashed(group, rest)| && Dashed(group, rest)[|group| + 1 + j] == rest[j]
  {
  }

  lemma InGroup(group: seq<Nibble>, rest: string, j: nat)
    requires j < |group|
    ensures j < |Dashed(group, rest)| && Dashed(group, rest)[j] == HEX[group[j]]
  {
    assert Dashed(group, rest)[j] == Hex(group)[j];
  }

  /** Digit `i` of the draw, past the dashes before it, is the lower-case hexadecimal digit of its nibble. */
  lemma LayoutDigit(draws: seq<Nibble>, i: nat)
    requires |draws| == 32 && i < 32
    ensures var at := i + if i < 8 then 0 else if i < 12 then 1 else if i < 16 then 2 else if i < 20 then 3 else 4;
      at < |Layout(draws)|
      && Layout(draws)[at] as int == if draws[i] < 10 then '0' as int + draws[i] else 'a' as int + draws[i] - 10
  {
    var a, b, c, d, e := draws[..8], draws[8..12], draws[12..16], draws[16..20], draws[20..];
    var last := Hex(e);
    var third := Dashed(d, last);
    var second := Dashed(c, third);
    var first := Dashed(b, second);
    HexByValue(draws[i]);
    if i < 8 {
      InGroup(a, first, i);
    } else if i < 12 {
      InGroup(b, second, i - 8);
      PastGroup(a, first, i - 8);
    } else if i < 16 {
      InGroup(c, third, i - 12);
      PastGroup(b, second, i - 12);
      PastGroup(a, first, i - 12 + 5);
    } else if i < 20 {
      InGroup(d, last, i - 16);
      PastGroup(c, third, i - 16);
      PastGroup(b, second, i - 16 + 5);
      PastGroup(a, first, i - 16 + 10);
    } else {
      PastGroup(d, last, i - 20);
      PastGroup(c, third, i - 20 + 5);
      PastGroup(b, second, i - 20 + 10);
      PastGroup(a, first, i - 20 + 15);
    }
  }

  /** Thirty-six characters: dashes at 8, 13, 18 and 23 and hexadecimal digits everywhere else. */
  lemma LayoutShape(draws: seq<Nibble>, i: nat)
    requires |draws| == 32 && i < 36
    ensures |Layout(draws)| == 36
    ensures Layout(draws)[i] == '-' <==> i in {8, 13, 18, 23}
    ensures i !in {8, 13, 18, 23} ==> Layout(draws)[i] in HEX
  {
  }

  lemma StripGroup(group: seq<Nibble>, rest: string)
    ensures WithoutDashes(Dashed(group, rest)) == Hex(group) + WithoutDashes(rest)
  {
    WithoutDashesConcat(Hex(group) + "-", rest);
    WithoutDashesConcat(Hex(group), "-");
    HexHasNoDashes(group);
  }

  /** Stripping the dashes recovers the digits of the draw. */
  lemma StripRecovers(draws: seq<Nibble>)
    requires |draws| == 32
    ensures WithoutDashes(Layout(draws)) == Hex(draws)
  {
    var a, b, c, d, e := draws[..8], draws[8..12], draws[12..16], draws[16..20], draws[20..];
    HexHasNoDashes(e);
    StripGroup(d, Hex(e));
    StripGroup(c, Dashed(d, Hex(e)));
    StripGroup(b, Dashed(c, Dashed(d, Hex(e))));
    StripGroup(a, Dashed(b, Dashed(c, Dashed(d, Hex(e)))));
    assert Hex(draws) == Hex(a) + (Hex(b) + (Hex(c) + (Hex(d) + Hex(e))));
  }

  lemma DigitsDiffer(x: Nibble, y: Nibble)
    ensures HEX[x] == HEX[y] <==> x == y
  {
  }

  /** Distinct draws give distinct ids. */
  lemma DistinctDraws(one: seq<Nibble>, other: seq<Nibble>)
    requires |one| == |other| == 32
    ensures Layout(one) == Layout(other) <==> one == other
  {
    if Layout(one) == Layout(other) {
      StripRecovers(one);
      StripRecovers(other);
      forall i | 0 <= i < 32
        ensures one[i] == other[i]
      {
        assert Hex(one)[i] == Hex(other)[i];
        DigitsDiffer(one[i], other[i]);
      }
    }
  }
}
