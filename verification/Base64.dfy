/** Base64 as in section 4 of RFC 4648: the standard alphabet with padding. Line breaks in the text are
    skipped when decoding. */
module Base64 {
  import opened Options
  import opened Seqs

  type byte = x: int | 0 <= x < 256

  function Letter(i: nat): char
    requires i < 64
  {
    if i < 26 then ('A' as int + i) as char
    else if i < 52 then ('a' as int + i - 26) as char
    else if i < 62 then ('0' as int + i - 52) as char
    else if i == 62 then '+' else '/'
  }

  function Index(c: char): (r: Option<nat>)
    ensures r.Some? ==> r.value < 64
  {
    if 'A' <= c <= 'Z' then Some(c as int - 'A' as int)
    else if 'a' <= c <= 'z' then Some(c as int - 'a' as int + 26)
    else if '0' <= c <= '9' then Some(c as int - '0' as int + 52)
    else if c == '+' then Some(62) else if c == '/' then Some(63)
    else None
  }

  /** The alphabet runs from A to Z, a to z and 0 to 9 and ends with + and /; each letter is read back. */
  lemma Alphabet(i: nat)
    requires i < 64
    ensures Index(Letter(i)) == Some(i)
    ensures Letter(0) == 'A' && Letter(26) == 'a' && Letter(52) == '0' && Letter(62) == '+' && Letter(63) == '/'
    ensures i !in {25, 51, 61, 62, 63} ==> Letter(i + 1) as int == Letter(i) as int + 1
  {
  }

  /** Three bytes are 24 bits, written as four digits of the alphabet, the most significant first. */
  lemma GroupDigits(x: byte, y: byte, z: byte)
    ensures exists a: nat, b: nat, c: nat, d: nat | a < 64 && b < 64 && c < 64 && d < 64 ::
      && Three(x, y, z) == [Letter(a), Letter(b), Letter(c), Letter(d)]
      && ((a * 64 + b) * 64 + c) * 64 + d == (x * 256 + y) * 256 + z
  {
    var a, b, c, d := x / 4, x % 4 * 16 + y / 16, y % 16 * 4 + z / 64, z % 64;
    Value24(x, y, z);
    assert Three(x, y, z) == [Letter(a), Letter(b), Letter(c), Letter(d)];
    hide Letter, Three;
  }

  lemma Value24(x: byte, y: byte, z: byte)
    ensures ((x / 4 * 64 + (x % 4 * 16 + y / 16)) * 64 + (y % 16 * 4 + z / 64)) * 64 + z % 64
            == (x * 256 + y) * 256 + z
  {
    Weights(x / 4, x % 4, y / 16, y % 16, z / 64, z % 64);
  }

  lemma Weights(p: nat, q: nat, r: nat, s: nat, t: nat, u: nat)
    ensures ((p * 64 + (q * 16 + r)) * 64 + (s * 4 + t)) * 64 + u
            == ((p * 4 + q) * 256 + (r * 16 + s)) * 256 + (t * 64 + u)
  {
  }

  /** One or two bytes are padded with zero bits, and the digits those alone fill are written as "=". */
  lemma ShortGroups(x: byte, y: byte)
    ensures Two(x, y) == Three(x, y, 0)[..3] + "=" && One(x) == Three(x, 0, 0)[..2] + "=="
  {
    assert 0 / 64 == 0 && 0 / 16 == 0;
    hide Letter;
  }

  lemma IndexOfLetter(i: nat)
    requires i < 64
    ensures Index(Letter(i)) == Some(i) && Letter(i) != '=' && Letter(i) != '\r' && Letter(i) != '\n'
  {
  }

  /** One, two or three bytes as a group of four characters. */
  function One(x: byte): (s: string) ensures |s| == 4 { [Letter(x / 4), Letter(x % 4 * 16), '=', '='] }
  function Two(x: byte, y: byte): (s: string)
    ensures |s| == 4
  {
    [Letter(x / 4), Letter(x % 4 * 16 + y / 16), Letter(y % 16 * 4), '=']
  }
  function Three(x: byte, y: byte, z: byte): (s: string) ensures |s| == 4 {
    [Letter(x / 4), Letter(x % 4 * 16 + y / 16), Letter(y % 16 * 4 + z / 64), Letter(z % 64)]
  }

  function Encode(b: seq<byte>): string {
    if |b| == 0 then ""
    else if |b| == 1 then One(b[0])
    else if |b| == 2 then Two(b[0], b[1])
    else Three(b[0], b[1], b[2]) + Encode(b[3..])
  }

  function High(a: nat, b: nat): byte
    requires a < 64 && b < 64
  {
    a * 4 + b / 16
  }

  function Middle(b: nat, c: nat): byte
    requires b < 64 && c < 64
  {
    b % 16 * 16 + c / 4
  }

  function Low(c: nat, d: nat): byte
    requires c < 64 && d < 64
  {
    c % 4 * 64 + d
  }

  /** The bytes of one group of four; only the last group may be padded. */
  function Group(g: string, last: bool): Option<seq<byte>>
    requires |g| == 4
  {
    var a, b, c, d := Index(g[0]), Index(g[1]), Index(g[2]), Index(g[3]);
    if a.None? || b.None? then None
    else
      var x := High(a.value, b.value);
      if c.None? then
        if last && g[2] == '=' && g[3] == '=' then Some([x]) else None
      else
        var y := Middle(b.value, c.value);
        if d.None? then
          if last && g[3] == '=' then Some([x, y]) else None
        else
          var z := Low(c.value, d.value);
          Some([x, y, z])
  }

  function Groups(s: string): Option<seq<byte>> {
    if s == "" then Some([])
    else if |s| < 4 then None
    else
      var first, rest := Group(s[..4], |s| == 4), Groups(s[4..]);
      if first.None? || rest.None? then None else Some(first.value + rest.value)
  }

  function NoBreak(): char -> bool { (c: char) => c != '\r' && c != '\n' }

  function Decode(s: string): Option<seq<byte>> { Groups(Filter(NoBreak(), s)) }

  lemma Bits(x: byte, y: byte, z: byte)
    ensures High(x / 4, x % 4 * 16 + y / 16) == x && High(x / 4, x % 4 * 16) == x
    ensures Middle(x % 4 * 16 + y / 16, y % 16 * 4 + z / 64) == y && Middle(x % 4 * 16 + y / 16, y % 16 * 4) == y
    ensures Low(y % 16 * 4 + z / 64, z % 64) == z
  {
  }

  lemma Letters(x: byte, y: byte, z: byte)
    ensures Index(Letter(x / 4)) == Some(x / 4)
    ensures Index(Letter(x % 4 * 16)) == Some(x % 4 * 16)
    ensures Index(Letter(x % 4 * 16 + y / 16)) == Some(x % 4 * 16 + y / 16)
    ensures Index(Letter(y % 16 * 4)) == Some(y % 16 * 4)
    ensures Index(Letter(y % 16 * 4 + z / 64)) == Some(y % 16 * 4 + z / 64)
    ensures Index(Letter(z % 64)) == Some(z % 64)
  {
    hide Letter, Index;
    IndexOfLetter(x / 4);
    IndexOfLetter(x % 4 * 16);
    IndexOfLetter(x % 4 * 16 + y / 16);
    IndexOfLetter(y % 16 * 4);
    IndexOfLetter(y % 16 * 4 + z / 64);
    IndexOfLetter(z % 64);
  }

  lemma PadIsNoLetter()
    ensures Index('=') == None
  {
  }

  lemma GroupsDecode(x: byte, y: byte, z: byte, last: bool)
    ensures Group(Three(x, y, z), last) == Some([x, y, z])
    ensures Group(Two(x, y), true) == Some([x, y])
    ensures Group(One(x), true) == Some([x])
  {
    Bits(x, y, z);
    Letters(x, y, z);
    PadIsNoLetter();
    hide Letter, Index, High, Middle, Low;
  }

  lemma LettersAreNoBreak(i: nat)
    requires i < 64
    ensures NoBreak()(Letter(i))
  {
  }

  lemma GroupsHaveNoBreak(x: byte, y: byte, z: byte)
    ensures forall c :: c in Three(x, y, z) ==> NoBreak()(c)
    ensures forall c :: c in Two(x, y) ==> NoBreak()(c)
    ensures forall c :: c in One(x) ==> NoBreak()(c)
  {
    LettersAreNoBreak(x / 4);
    LettersAreNoBreak(x % 4 * 16);
    LettersAreNoBreak(x % 4 * 16 + y / 16);
    LettersAreNoBreak(y % 16 * 4);
    LettersAreNoBreak(y % 16 * 4 + z / 64);
    LettersAreNoBreak(z % 64);
    hide Letter;
  }

  lemma {:induction false} EncodedHasNoBreak(b: seq<byte>)
    ensures forall c :: c in Encode(b) ==> NoBreak()(c)
  {
    hide One, Two, Three, NoBreak;
    if |b| >= 3 {
      GroupsHaveNoBreak(b[0], b[1], b[2]);
      EncodedHasNoBreak(b[3..]);
    } else if |b| == 2 {
      GroupsHaveNoBreak(b[0], b[1], 0);
    } else if |b| == 1 {
      GroupsHaveNoBreak(b[0], 0, 0);
    }
  }

  lemma GroupsSplit(g: string, rest: string)
    requires |g| == 4
    ensures Groups(g + rest) ==
      if Group(g, rest == "").None? || Groups(rest).None? then None
      else Some(Group(g, rest == "").value + Groups(rest).value)
  {
    hide Group;
    assert (g + rest)[..4] == g && (g + rest)[4..] == rest;
  }

  lemma Parts<T>(b: seq<T>)
    ensures |b| >= 3 ==> [b[0], b[1], b[2]] + b[3..] == b
    ensures |b| == 2 ==> [b[0], b[1]] + [] == b
    ensures |b| == 1 ==> [b[0]] + [] == b
  {
  }

  lemma EncodeHead(b: seq<byte>)
    ensures |b| >= 3 ==> Encode(b) == Three(b[0], b[1], b[2]) + Encode(b[3..])
    ensures |b| == 2 ==> Encode(b) == Two(b[0], b[1]) + ""
    ensures |b| == 1 ==> Encode(b) == One(b[0]) + ""
    ensures |b| == 0 ==> Encode(b) == ""
  {
    hide Letter, One, Two, Three;
  }

  lemma {:induction false} GroupsOfEncode(b: seq<byte>)
    ensures Groups(Encode(b)) == Some(b)
  {
    assert Groups("") == Some([]);
    Parts(b);
    EncodeHead(b);
    hide *;
    if |b| >= 3 {
      GroupsDecode(b[0], b[1], b[2], Encode(b[3..]) == "");
      GroupsSplit(Three(b[0], b[1], b[2]), Encode(b[3..]));
      GroupsOfEncode(b[3..]);
    } else if |b| == 2 {
      GroupsDecode(b[0], b[1], 0, true);
      GroupsSplit(Two(b[0], b[1]), "");
    } else if |b| == 1 {
      GroupsDecode(b[0], 0, 0, true);
      GroupsSplit(One(b[0]), "");
    }
  }

  /** Every byte string survives being encoded and decoded. */
  lemma RoundTrip(b: seq<byte>)
    ensures Decode(Encode(b)) == Some(b)
  {
    EncodedHasNoBreak(b);
    FilterAll(NoBreak(), Encode(b));
    GroupsOfEncode(b);
  }
}
