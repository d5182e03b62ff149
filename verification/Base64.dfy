/** Image bytes arrive as base64. The decoder accepts exactly the canonical encodings of RFC 4648, section 4, with the
    zero pad bits of section 3.5. */
module Base64 {
  import opened Octets

  type Sextet = x: int | 0 <= x < 64

  datatype Base64Error = BadLength | WrongSize | BadPadding | BadCharacter | PadBits

  datatype Decoded = Bytes(bytes: seq<Octet>) | Refused(error: Base64Error)

  /** The value of a character of the alphabet, or minus one. */
  function ValueOf(c: char): int {
    if 'A' <= c <= 'Z' then c as int - 'A' as int
    else if 'a' <= c <= 'z' then c as int - 'a' as int + 26
    else if '0' <= c <= '9' then c as int - '0' as int + 52
    else if c == '+' then 62
    else if c == '/' then 63
    else -1
  }

  /** The alphabet of the encoding. */
  function CharOf(v: Sextet): char {
    if v < 26 then ('A' as int + v) as char
    else if v < 52 then ('a' as int + v - 26) as char
    else if v < 62 then ('0' as int + v - 52) as char
    else if v == 62 then '+'
    else '/'
  }

  lemma AlphabetInverts(c: char, v: Sextet)
    ensures ValueOf(c) == v <==> c == CharOf(v)
    ensures -1 <= ValueOf(c) < 64 && ValueOf('=') == -1
  {
  }

  // ---- The reference encoder ----

  function Encode(bytes: seq<Octet>): string {
    if bytes == [] then ""
    else if |bytes| == 1 then [CharOf(bytes[0] / 4), CharOf(bytes[0] % 4 * 16), '=', '=']
    else if |bytes| == 2 then
      [CharOf(bytes[0] / 4), CharOf(bytes[0] % 4 * 16 + bytes[1] / 16), CharOf(bytes[1] % 16 * 4), '=']
    else
      [CharOf(bytes[0] / 4), CharOf(bytes[0] % 4 * 16 + bytes[1] / 16), CharOf(bytes[1] % 16 * 4 + bytes[2] / 64),
        CharOf(bytes[2] % 64)]
      + Encode(bytes[3..])
  }

  // ---- The decoder ----

  /** One group of four characters; only the last may be padded. */
  function DecodeGroup(a: char, b: char, c: char, d: char, final: bool): Decoded {
    var thirdPad, fourthPad := c == '=', d == '=';
    if (!final && (thirdPad || fourthPad)) || (thirdPad && !fourthPad) then Refused(BadPadding)
    else
      var first, second := ValueOf(a), ValueOf(b);
      var third := if thirdPad then 0 else ValueOf(c);
      var fourth := if fourthPad then 0 else ValueOf(d);
      if first < 0 || second < 0 || third < 0 || fourth < 0 then Refused(BadCharacter)
      else if (thirdPad && second % 16 != 0) || (fourthPad && !thirdPad && third % 4 != 0) then Refused(PadBits)
      else
        AlphabetInverts(a, 0);
        AlphabetInverts(b, 0);
        AlphabetInverts(c, 0);
        AlphabetInverts(d, 0);
        var one := first * 4 + second / 16;
        var two := second % 16 * 16 + third / 4;
        var three := third % 4 * 64 + fourth;
        Bytes(if thirdPad then [one] else if fourthPad then [one, two] else [one, two, three])
  }

  function DecodeGroups(encoded: string): Decoded
    decreases encoded
  {
    if encoded == "" then Bytes([])
    else if |encoded| < 4 then Refused(BadLength)
    else
      var group := DecodeGroup(encoded[0], encoded[1], encoded[2], encoded[3], |encoded| == 4);
      if group.Refused? then group
      else
        var rest := DecodeGroups(encoded[4..]);
        if rest.Refused? then rest else Bytes(group.bytes + rest.bytes)
  }

  function Padding(encoded: string): nat {
    if encoded == "" || encoded[|encoded| - 1] != '=' then 0
    else if |encoded| >= 2 && encoded[|encoded| - 2] == '=' then 2
    else 1
  }

  function Decode(encoded: string, expectedSize: nat): Decoded {
    if |encoded| % 4 != 0 then Refused(BadLength)
    else if |encoded| / 4 * 3 - Padding(encoded) != expectedSize then Refused(WrongSize)
    else DecodeGroups(encoded)
  }

  // ---- Refusals ----

  /** A character that stands for no value. */
  ghost predicate Foreign(c: char) {
    forall v: Sextet :: CharOf(v) != c
  }

  lemma ForeignIff(c: char)
    ensures Foreign(c) <==> ValueOf(c) < 0
    ensures ValueOf(c) >= 0 ==> ValueOf(c) < 64 && CharOf(ValueOf(c)) == c
  {
    AlphabetInverts(c, 0);
    if ValueOf(c) >= 0 {
      AlphabetInverts(c, ValueOf(c));
    } else {
      forall v: Sextet ensures CharOf(v) != c { AlphabetInverts(c, v); }
    }
  }

  /** What is wrong with a group of four: padding where it may not be, a character outside the alphabet, or bits that
      the padding cuts off and that are not zero. */
  ghost predicate Defective(a: char, b: char, c: char, d: char, final: bool, e: Base64Error) {
    match e
    case BadPadding => (!final && (c == '=' || d == '=')) || (c == '=' && d != '=')
    case BadCharacter => Foreign(a) || Foreign(b) || (c != '=' && Foreign(c)) || (d != '=' && Foreign(d))
    case PadBits =>
      || (c == '=' && exists v: Sextet :: CharOf(v) == b && v % 16 != 0)
      || (d == '=' && c != '=' && exists v: Sextet :: CharOf(v) == c && v % 4 != 0)
    case _ => false
  }

  lemma GroupRefusesFor(a: char, b: char, c: char, d: char, final: bool)
    ensures var group := DecodeGroup(a, b, c, d, final);
      group.Refused? ==> Defective(a, b, c, d, final, group.error)
  {
    ForeignIff(a);
    ForeignIff(b);
    ForeignIff(c);
    ForeignIff(d);
  }

  /** The group of four at index k has that defect. */
  ghost predicate DefectiveAt(encoded: string, k: nat, e: Base64Error) {
    && k + 4 <= |encoded| && k % 4 == 0
    && Defective(encoded[k], encoded[k + 1], encoded[k + 2], encoded[k + 3], k + 4 == |encoded|, e)
  }

  lemma LaterGroup(encoded: string, k: nat, e: Base64Error)
    requires |encoded| >= 4 && DefectiveAt(encoded[4..], k, e)
    ensures DefectiveAt(encoded, k + 4, e)
  {
  }

  lemma {:induction false} RefusesFor(encoded: string)
    requires |encoded| % 4 == 0 && DecodeGroups(encoded).Refused?
    ensures exists k :: DefectiveAt(encoded, k, DecodeGroups(encoded).error)
    decreases |encoded|
  {
    GroupRefusesFor(encoded[0], encoded[1], encoded[2], encoded[3], |encoded| == 4);
    var group := DecodeGroup(encoded[0], encoded[1], encoded[2], encoded[3], |encoded| == 4);
    if group.Bytes? {
      RefusesFor(encoded[4..]);
      var k :| DefectiveAt(encoded[4..], k, DecodeGroups(encoded[4..]).error);
      LaterGroup(encoded, k, DecodeGroups(encoded[4..]).error);
    } else {
      assert DefectiveAt(encoded, 0, group.error);
    }
  }

  /** Decoding is refused for a length that is no multiple of four, for another size than is expected, or for a group
      that has the defect named. */
  lemma DecodeRefusesFor(encoded: string, expectedSize: nat)
    requires Decode(encoded, expectedSize).Refused?
    ensures var e := Decode(encoded, expectedSize).error;
      if |encoded| % 4 != 0 then e == BadLength
      else if |encoded| / 4 * 3 - Padding(encoded) != expectedSize then e == WrongSize
      else exists k :: DefectiveAt(encoded, k, e)
  {
    if |encoded| % 4 == 0 && |encoded| / 4 * 3 - Padding(encoded) == expectedSize { RefusesFor(encoded); }
  }

  // ---- Exactness ----

  lemma FullGroupIff(a: char, b: char, c: char, d: char, final: bool, x: Octet, y: Octet, z: Octet)
    ensures DecodeGroup(a, b, c, d, final) == Bytes([x, y, z]) <==>
      a == CharOf(x / 4) && b == CharOf(x % 4 * 16 + y / 16) && c == CharOf(y % 16 * 4 + z / 64) && d == CharOf(z % 64)
  {
    AlphabetInverts(a, x / 4);
    AlphabetInverts(b, x % 4 * 16 + y / 16);
    AlphabetInverts(c, y % 16 * 4 + z / 64);
    AlphabetInverts(d, z % 64);
    if c != '=' && d != '=' {
      ThreeIff(ValueOf(a), ValueOf(b), ValueOf(c), ValueOf(d), x, y, z);
      var group := DecodeGroup(a, b, c, d, final);
      if group == Bytes([x, y, z]) { assert group.bytes[0] == x && group.bytes[1] == y && group.bytes[2] == z; }
    }
  }

  lemma ThreeIff(p: int, q: int, r: int, s: int, x: Octet, y: Octet, z: Octet)
    requires -1 <= p < 64 && -1 <= q < 64 && -1 <= r < 64 && -1 <= s < 64
    ensures p >= 0 && q >= 0 && r >= 0 && s >= 0 && p * 4 + q / 16 == x && q % 16 * 16 + r / 4 == y &&
      r % 4 * 64 + s == z
      <==> p == x / 4 && q == x % 4 * 16 + y / 16 && r == y % 16 * 4 + z / 64 && s == z % 64
  {
  }

  lemma TwoGroupIff(a: char, b: char, c: char, d: char, final: bool, x: Octet, y: Octet)
    ensures DecodeGroup(a, b, c, d, final) == Bytes([x, y]) <==>
      final && a == CharOf(x / 4) && b == CharOf(x % 4 * 16 + y / 16) && c == CharOf(y % 16 * 4) && d == '='
  {
    AlphabetInverts(a, x / 4);
    AlphabetInverts(b, x % 4 * 16 + y / 16);
    AlphabetInverts(c, y % 16 * 4);
    if d == '=' && c != '=' {
      TwoIff(ValueOf(a), ValueOf(b), ValueOf(c), x, y);
      var group := DecodeGroup(a, b, c, d, final);
      if group == Bytes([x, y]) { assert group.bytes[0] == x && group.bytes[1] == y; }
    }
  }

  /** A six-bit value above four bits of the next is an octet. */
  lemma HighIff(p: int, high: int, x: Octet)
    requires 0 <= p && 0 <= high < 4
    ensures p * 4 + high == x <==> p == x / 4 && high == x % 4
  {
  }

  lemma MiddleIff(q: int, high: int, low: int)
    requires 0 <= low < 16
    ensures q / 16 == high && q % 16 == low <==> q == high * 16 + low
  {
  }

  lemma TwoIff(p: int, q: int, r: int, x: Octet, y: Octet)
    requires -1 <= p < 64 && -1 <= q < 64 && -1 <= r < 64
    ensures p >= 0 && q >= 0 && r >= 0 && r % 4 == 0 && p * 4 + q / 16 == x && q % 16 * 16 + r / 4 == y
      <==> p == x / 4 && q == x % 4 * 16 + y / 16 && r == y % 16 * 4
  {
    MiddleIff(q, x % 4, y / 16);
    if p >= 0 && q >= 0 && r >= 0 { HighIff(p, q / 16, x); }
  }

  lemma OneGroupIff(a: char, b: char, c: char, d: char, final: bool, x: Octet)
    ensures DecodeGroup(a, b, c, d, final) == Bytes([x]) <==>
      final && a == CharOf(x / 4) && b == CharOf(x % 4 * 16) && c == '=' && d == '='
  {
    AlphabetInverts(a, x / 4);
    AlphabetInverts(b, x % 4 * 16);
    if d == '=' && c == '=' {
      OneIff(ValueOf(a), ValueOf(b), x);
      var group := DecodeGroup(a, b, c, d, final);
      if group == Bytes([x]) { assert group.bytes[0] == x; }
    }
  }

  lemma OneIff(p: int, q: int, x: Octet)
    requires -1 <= p < 64 && -1 <= q < 64
    ensures p >= 0 && q >= 0 && q % 16 == 0 && p * 4 + q / 16 == x <==> p == x / 4 && q == x % 4 * 16
  {
  }

  lemma GroupLength(a: char, b: char, c: char, d: char, final: bool)
    ensures DecodeGroup(a, b, c, d, final).Bytes? ==> 1 <= |DecodeGroup(a, b, c, d, final).bytes| <= 3
    ensures DecodeGroup(a, b, c, d, final).Bytes? && !final ==> |DecodeGroup(a, b, c, d, final).bytes| == 3
  {
  }

  function GroupCount(bytes: seq<Octet>): nat {
    if bytes == [] then 0 else if |bytes| <= 3 then 1 else 1 + GroupCount(bytes[3..])
  }

  lemma {:induction false} EncodeLength(bytes: seq<Octet>)
    ensures |Encode(bytes)| == 4 * GroupCount(bytes)
    ensures bytes == [] <==> GroupCount(bytes) == 0
  {
    if |bytes| >= 3 { EncodeLength(bytes[3..]); }
  }

  /** Group by group, what decodes to the bytes is their encoding and nothing else. */
  lemma {:induction false} GroupsIff(encoded: string, bytes: seq<Octet>)
    ensures DecodeGroups(encoded) == Bytes(bytes) <==> encoded == Encode(bytes)
    decreases encoded
  {
    EncodeLength(bytes);
    if |encoded| >= 4 && bytes != [] {
      if |bytes| >= 3 {
        LongIff(encoded, bytes);
      } else {
        ShortIff(encoded, bytes);
      }
    } else if |encoded| >= 4 {
      GroupLength(encoded[0], encoded[1], encoded[2], encoded[3], |encoded| == 4);
    }
  }

  lemma {:induction false} LongIff(encoded: string, bytes: seq<Octet>)
    requires |encoded| >= 4 && |bytes| >= 3
    ensures DecodeGroups(encoded) == Bytes(bytes) <==> encoded == Encode(bytes)
    decreases encoded, 0
  {
    var final := |encoded| == 4;
    GroupLength(encoded[0], encoded[1], encoded[2], encoded[3], final);
    FullGroupIff(encoded[0], encoded[1], encoded[2], encoded[3], final, bytes[0], bytes[1], bytes[2]);
    GroupsIff(encoded[4..], bytes[3..]);
    EncodeLength(bytes[3..]);
    var head := [CharOf(bytes[0] / 4), CharOf(bytes[0] % 4 * 16 + bytes[1] / 16),
      CharOf(bytes[1] % 16 * 4 + bytes[2] / 64), CharOf(bytes[2] % 64)];
    assert Encode(bytes) == head + Encode(bytes[3..]);
    assert encoded == encoded[..4] + encoded[4..];
    assert encoded == Encode(bytes) <==> encoded[..4] == head && encoded[4..] == Encode(bytes[3..]) by {
      if encoded == head + Encode(bytes[3..]) { assert encoded[4..] == Encode(bytes[3..]) && encoded[..4] == head; }
    }
    assert encoded[..4] == [encoded[0], encoded[1], encoded[2], encoded[3]];
    JoinedThree(encoded, bytes);
  }

  /** The first group of three bytes or more is a full one. */
  lemma JoinedThree(encoded: string, bytes: seq<Octet>)
    requires |encoded| >= 4 && |bytes| >= 3
    ensures DecodeGroups(encoded) == Bytes(bytes) <==>
      DecodeGroup(encoded[0], encoded[1], encoded[2], encoded[3], |encoded| == 4) ==
        Bytes([bytes[0], bytes[1], bytes[2]])
      && DecodeGroups(encoded[4..]) == Bytes(bytes[3..])
  {
    var group := DecodeGroup(encoded[0], encoded[1], encoded[2], encoded[3], |encoded| == 4);
    GroupLength(encoded[0], encoded[1], encoded[2], encoded[3], |encoded| == 4);
    var rest := DecodeGroups(encoded[4..]);
    if group.Bytes? && rest.Bytes? {
      if |encoded| == 4 { assert rest.bytes == []; }
      if group.bytes + rest.bytes == bytes {
        assert |group.bytes| == 3;
        assert bytes[..3] == group.bytes && bytes[3..] == rest.bytes;
      }
      if group.bytes == [bytes[0], bytes[1], bytes[2]] && rest.bytes == bytes[3..] {
        assert bytes == bytes[..3] + bytes[3..];
      }
    }
  }

  lemma ShortIff(encoded: string, bytes: seq<Octet>)
    requires |encoded| >= 4 && 1 <= |bytes| <= 2
    ensures DecodeGroups(encoded) == Bytes(bytes) <==> encoded == Encode(bytes)
  {
    var final := |encoded| == 4;
    var group := DecodeGroup(encoded[0], encoded[1], encoded[2], encoded[3], final);
    GroupLength(encoded[0], encoded[1], encoded[2], encoded[3], final);
    if |bytes| == 1 {
      OneGroupIff(encoded[0], encoded[1], encoded[2], encoded[3], final, bytes[0]);
      assert bytes == [bytes[0]];
    } else {
      TwoGroupIff(encoded[0], encoded[1], encoded[2], encoded[3], final, bytes[0], bytes[1]);
      assert bytes == [bytes[0], bytes[1]];
    }
    if final {
      assert encoded == [encoded[0], encoded[1], encoded[2], encoded[3]];
      assert DecodeGroups(encoded[4..]) == Bytes([]);
      if group.Bytes? { assert group.bytes + [] == group.bytes; }
    }
  }

  lemma {:induction false} EncodePadding(bytes: seq<Octet>)
    ensures 3 * GroupCount(bytes) - Padding(Encode(bytes)) == |bytes|
  {
    EncodeLength(bytes);
    if |bytes| >= 3 {
      EncodePadding(bytes[3..]);
      EncodeLength(bytes[3..]);
      var head, rest := Encode(bytes)[..4], Encode(bytes[3..]);
      assert Encode(bytes) == head + rest;
      AlphabetInverts(Encode(bytes)[3], bytes[2] % 64);
      if rest != "" {
        assert Encode(bytes)[|Encode(bytes)| - 1] == rest[|rest| - 1] &&
          Encode(bytes)[|Encode(bytes)| - 2] == rest[|rest| - 2];
      }
    } else if |bytes| == 2 {
      AlphabetInverts(Encode(bytes)[2], bytes[1] % 16 * 4);
    }
  }

  /** The decoder is the exact inverse of the canonical encoding, for exactly the expected number of bytes. */
  lemma DecodeIff(encoded: string, size: nat, bytes: seq<Octet>)
    ensures Decode(encoded, size) == Bytes(bytes) <==> |bytes| == size && encoded == Encode(bytes)
  {
    EncodeLength(bytes);
    EncodePadding(bytes);
    GroupsIff(encoded, bytes);
    assert 4 * GroupCount(bytes) / 4 == GroupCount(bytes) && 4 * GroupCount(bytes) % 4 == 0;
  }

  lemma EncodeThenDecode(bytes: seq<Octet>)
    ensures Decode(Encode(bytes), |bytes|) == Bytes(bytes)
  {
    DecodeIff(Encode(bytes), |bytes|, bytes);
  }

  /** No two texts decode to the same bytes. */
  lemma DecodeIsInjective(first: string, second: string, size: nat)
    requires Decode(first, size).Bytes? && Decode(first, size) == Decode(second, size)
    ensures first == second
  {
    DecodeIff(first, size, Decode(first, size).bytes);
    DecodeIff(second, size, Decode(first, size).bytes);
  }

  // ---- The loop ----

  lemma GroupsStep(encoded: string, offset: nat)
    requires offset + 4 <= |encoded|
    ensures var group := DecodeGroup(encoded[offset], encoded[offset + 1], encoded[offset + 2], encoded[offset + 3],
      offset + 4 == |encoded|);
      DecodeGroups(encoded[offset..]) == if group.Refused? then group
        else After(group.bytes, DecodeGroups(encoded[offset + 4..]))
  {
    assert encoded[offset..][4..] == encoded[offset + 4..];
  }

  method DecodeLoop(encoded: string, expectedSize: nat) returns (r: Decoded)
    ensures r == Decode(encoded, expectedSize)
  {
    if |encoded| % 4 != 0 { return Refused(BadLength); }
    var padding := 0;
    if encoded != "" && encoded[|encoded| - 1] == '=' {
      padding := 1;
      if |encoded| >= 2 && encoded[|encoded| - 2] == '=' { padding := 2; }
    }
    if |encoded| / 4 * 3 - padding != expectedSize { return Refused(WrongSize); }
    r := DecodeEach(encoded);
  }

  /** Groups are decoded one after the other, their bytes appended. */
  method DecodeEach(encoded: string) returns (r: Decoded)
    requires |encoded| % 4 == 0
    ensures r == DecodeGroups(encoded)
  {
    var decoded: seq<Octet> := [];
    var offset, groups := 0, |encoded| / 4;
    ghost var goal := DecodeGroups(encoded);
    assert encoded[0..] == encoded;
    assert goal.Bytes? ==> [] + goal.bytes == goal.bytes;
    for k := 0 to groups
      invariant offset == 4 * k
      invariant goal == After(decoded, DecodeGroups(encoded[offset..]))
    {
      GroupsStep(encoded, offset);
      var group := DecodeGroup(encoded[offset], encoded[offset + 1], encoded[offset + 2], encoded[offset + 3],
        offset + 4 == |encoded|);
      if group.Refused? { return group; }
      AfterTwice(decoded, group.bytes, DecodeGroups(encoded[offset + 4..]));
      decoded := decoded + group.bytes;
      offset := offset + 4;
    }
    assert encoded[offset..] == "";
    assert decoded + [] == decoded;
    r := Bytes(decoded);
  }

  function After(front: seq<Octet>, rest: Decoded): Decoded {
    if rest.Bytes? then Bytes(front + rest.bytes) else rest
  }

  lemma AfterTwice(a: seq<Octet>, b: seq<Octet>, rest: Decoded)
    ensures After(a, After(b, rest)) == After(a + b, rest)
  {
    if rest.Bytes? { assert a + (b + rest.bytes) == (a + b) + rest.bytes; }
  }
}
