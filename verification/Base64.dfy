/** Base64 without padding, in the standard alphabet (section 4 of RFC 4648) and in the URL-safe one
    (section 5), with the decoder's habits: line breaks are skipped, spare bits are ignored. */
module Base64 {
  import opened Wrappers

  type Byte = x: int | 0 <= x < 256
  type Sextet = x: int | 0 <= x < 64

  datatype Alphabet = Standard | UrlSafe

  function Letter(alphabet: Alphabet, i: Sextet): char {
    if i < 26 then 'A' + i as char
    else if i < 52 then 'a' + (i - 26) as char
    else if i < 62 then '0' + (i - 52) as char
    else if i == 62 then (if alphabet == Standard then '+' else '-')
    else (if alphabet == Standard then '/' else '_')
  }

  function Index(alphabet: Alphabet, c: char): Option<Sextet> {
    if 'A' <= c <= 'Z' then Some((c - 'A') as int)
    else if 'a' <= c <= 'z' then Some((c - 'a') as int + 26)
    else if '0' <= c <= '9' then Some((c - '0') as int + 52)
    else if c == Letter(alphabet, 62) then Some(62)
    else if c == Letter(alphabet, 63) then Some(63)
    else None
  }

  lemma IndexOfLetter(alphabet: Alphabet, i: Sextet)
    ensures Index(alphabet, Letter(alphabet, i)) == Some(i)
    ensures Letter(alphabet, i) !in "\r\n.$"
  {
  }

  // ---------- Bytes and sextets ----------

  /** Eight-bit groups to six-bit groups; a last incomplete group is filled with zero bits. */
  function ToSextets(b: seq<Byte>): seq<Sextet> {
    if b == [] then []
    else if |b| == 1 then Head(b[0], 0, 0)[..2]
    else if |b| == 2 then Head(b[0], b[1], 0)[..3]
    else Head(b[0], b[1], b[2]) + ToSextets(b[3..])
  }

  function Head(a: Byte, b: Byte, c: Byte): (s: seq<Sextet>)
    ensures |s| == 4
  {
    [a / 4, a % 4 * 16 + b / 16, b % 16 * 4 + c / 64, c % 64]
  }

  function FirstByte(a: Sextet, b: Sextet): Byte { a * 4 + b / 16 }

  function SecondByte(b: Sextet, c: Sextet): Byte { b % 16 * 16 + c / 4 }

  function ThirdByte(c: Sextet, d: Sextet): Byte { c % 4 * 64 + d }

  /** Four, three or two sextets give three, two or one byte; one alone is an error. */
  function FromSextets(s: seq<Sextet>): Option<seq<Byte>> {
    if s == [] then Some([])
    else if |s| == 1 then None
    else if |s| == 2 then Some([FirstByte(s[0], s[1])])
    else if |s| == 3 then Some([FirstByte(s[0], s[1]), SecondByte(s[1], s[2])])
    else match FromSextets(s[4..])
      case None => None
      case Some(rest) => Some([FirstByte(s[0], s[1]), SecondByte(s[1], s[2]), ThirdByte(s[2], s[3])] + rest)
  }

  lemma HeadBytes(a: Byte, b: Byte, c: Byte)
    ensures var s := Head(a, b, c); FirstByte(s[0], s[1]) == a && SecondByte(s[1], s[2]) == b && ThirdByte(s[2], s[3]) == c
  {
  }

  lemma {:induction false} SextetsRoundTrip(b: seq<Byte>)
    ensures FromSextets(ToSextets(b)) == Some(b)
    decreases |b|
  {
    if |b| >= 3 {
      HeadBytes(b[0], b[1], b[2]);
      SextetsRoundTrip(b[3..]);
      assert b[..3] == [b[0], b[1], b[2]];
      GroupRoundTrip(b, Head(b[0], b[1], b[2]), ToSextets(b[3..]));
    } else if |b| == 2 {
      HeadBytes(b[0], b[1], 0);
      assert b == [b[0], b[1]];
    } else if |b| == 1 {
      HeadBytes(b[0], 0, 0);
      assert b == [b[0]];
    }
  }

  lemma GroupRoundTrip(b: seq<Byte>, group: seq<Sextet>, rest: seq<Sextet>)
    requires |b| >= 3 && |group| == 4 && FromSextets(rest) == Some(b[3..])
    requires Group(group) == b[..3]
    ensures FromSextets(group + rest) == Some(b)
  {
    FromConcat(group, rest);
    assert b == b[..3] + b[3..];
  }

  function Group(s: seq<Sextet>): seq<Byte>
    requires |s| == 4
  {
    [FirstByte(s[0], s[1]), SecondByte(s[1], s[2]), ThirdByte(s[2], s[3])]
  }

  lemma FromConcat(group: seq<Sextet>, rest: seq<Sextet>)
    requires |group| == 4 && FromSextets(rest).Some?
    ensures FromSextets(group + rest) == Some(Group(group) + FromSextets(rest).value)
  {
    assert (group + rest)[4..] == rest;
  }

  // ---------- Text ----------

  function Letters(alphabet: Alphabet, s: seq<Sextet>): (text: string) {
    seq(|s|, i requires 0 <= i < |s| => Letter(alphabet, s[i]))
  }

  function Indices(alphabet: Alphabet, text: string): Option<seq<Sextet>> {
    if text == "" then Some([])
    else match (Index(alphabet, text[0]), Indices(alphabet, text[1..]))
      case (Some(i), Some(rest)) => Some([i] + rest)
      case _ => None
  }

  function DropLineBreaks(text: string): string {
    if text == "" then ""
    else if text[0] == '\r' || text[0] == '\n' then DropLineBreaks(text[1..])
    else [text[0]] + DropLineBreaks(text[1..])
  }

  /** EncodeToString. */
  function Encode(alphabet: Alphabet, b: seq<Byte>): string {
    Letters(alphabet, ToSextets(b))
  }

  /** DecodeString. */
  function Decode(alphabet: Alphabet, text: string): Option<seq<Byte>> {
    match Indices(alphabet, DropLineBreaks(text))
    case None => None
    case Some(s) => FromSextets(s)
  }

  lemma {:induction false} IndicesOfLetters(alphabet: Alphabet, s: seq<Sextet>)
    ensures DropLineBreaks(Letters(alphabet, s)) == Letters(alphabet, s)
    ensures Indices(alphabet, Letters(alphabet, s)) == Some(s)
    decreases |s|
  {
    if s != [] {
      IndicesOfLetters(alphabet, s[1..]);
      IndexOfLetter(alphabet, s[0]);
      assert Letters(alphabet, s)[1..] == Letters(alphabet, s[1..]);
      assert s == [s[0]] + s[1..];
    }
  }

  /** Decoding gives back any byte string, of every length modulo 3, in both alphabets. */
  lemma RoundTrip(alphabet: Alphabet, b: seq<Byte>)
    ensures Decode(alphabet, Encode(alphabet, b)) == Some(b)
  {
    SextetsRoundTrip(b);
    IndicesOfLetters(alphabet, ToSextets(b));
  }

  /** The separators of the session token and of the hash string are in neither alphabet. */
  lemma NoSeparators(alphabet: Alphabet, b: seq<Byte>)
    ensures '.' !in Encode(alphabet, b) && '$' !in Encode(alphabet, b)
  {
    var s := ToSextets(b);
    forall i | 0 <= i < |s| ensures Encode(alphabet, b)[i] != '.' && Encode(alphabet, b)[i] != '$' {
      IndexOfLetter(alphabet, s[i]);
    }
  }

  /** The decoder undoes more than the encoder writes: line feeds and carriage returns anywhere change nothing. */
  lemma LineBreaksIgnored(alphabet: Alphabet, a: string, c: char, b: string)
    requires c == '\n' || c == '\r'
    ensures Decode(alphabet, a + [c] + b) == Decode(alphabet, a + b)
  {
    DropsBreak(a, c, b);
  }

  lemma {:induction false} DropsBreak(a: string, c: char, b: string)
    requires c == '\n' || c == '\r'
    ensures DropLineBreaks(a + [c] + b) == DropLineBreaks(a + b)
    decreases |a|
  {
    if a == "" {
      assert (a + [c] + b)[1..] == b && a + b == b;
    } else {
      DropsBreak(a[1..], c, b);
      assert (a + [c] + b)[1..] == a[1..] + [c] + b && (a + b)[1..] == a[1..] + b;
    }
  }

  /** The characters of the two alphabets. */
  predicate InAlphabet(alphabet: Alphabet, c: char) {
    || 'A' <= c <= 'Z' || 'a' <= c <= 'z' || '0' <= c <= '9'
    || match alphabet
       case Standard => c == '+' || c == '/'
       case UrlSafe => c == '-' || c == '_'
  }

  /** Any other character is refused, the padding sign among them, wherever it stands. */
  lemma ForeignRefused(alphabet: Alphabet, a: string, c: char, b: string)
    requires !InAlphabet(alphabet, c) && c != '\n' && c != '\r'
    ensures Decode(alphabet, a + [c] + b) == None
  {
    DropsNoOther(a, c, b);
    ForeignIndex(alphabet, DropLineBreaks(a), c, DropLineBreaks(b));
  }

  lemma {:induction false} DropsNoOther(a: string, c: char, b: string)
    requires c != '\n' && c != '\r'
    ensures DropLineBreaks(a + [c] + b) == DropLineBreaks(a) + [c] + DropLineBreaks(b)
    decreases |a|
  {
    if a == "" {
      assert (a + [c] + b)[1..] == b;
    } else {
      DropsNoOther(a[1..], c, b);
      assert (a + [c] + b)[1..] == a[1..] + [c] + b;
    }
  }

  lemma {:induction false} ForeignIndex(alphabet: Alphabet, a: string, c: char, b: string)
    requires !InAlphabet(alphabet, c)
    ensures Indices(alphabet, a + [c] + b) == None
    decreases |a|
  {
    if a != "" {
      ForeignIndex(alphabet, a[1..], c, b);
      assert (a + [c] + b)[1..] == a[1..] + [c] + b;
    }
  }

  /** Three bytes and their four letters, the first bits first. */
  lemma EncodedGroup(alphabet: Alphabet, a: Byte, b: Byte, c: Byte, rest: seq<Byte>)
    ensures var s: seq<Sextet> := [a / 4, a % 4 * 16 + b / 16, b % 16 * 4 + c / 64, c % 64];
      Encode(alphabet, [a, b, c] + rest) == Letters(alphabet, s) + Encode(alphabet, rest)
  {
    assert ([a, b, c] + rest)[3..] == rest;
  }

  /** The letters of section 4 and section 5 of RFC 4648: A to Z, a to z, 0 to 9, and two more. */
  lemma LettersInOrder(alphabet: Alphabet, i: Sextet)
    ensures Letter(alphabet, 0) == 'A' && Letter(alphabet, 26) == 'a' && Letter(alphabet, 52) == '0'
    ensures i < 61 && i != 25 && i != 51 ==> Letter(alphabet, i + 1) as int == Letter(alphabet, i) as int + 1
    ensures Letters(Standard, [62, 63]) == "+/" && Letters(UrlSafe, [62, 63]) == "-_"
  {
  }
}
