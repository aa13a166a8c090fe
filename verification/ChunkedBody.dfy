/**
 `processChunkedBody`: the chunked transfer coding of section 7.1 of RFC 9112, decoded by string
 search and `parseInt`. A buffer is a string with one character per byte.
 */
module ChunkedBody {
  import opened Wrappers

  const CRLF := "\r\n"

  datatype Outcome =
    | Body(bytes: string)
    | Failed(error: Error)
    | Hangs // a round that makes no progress, which the loop repeats for ever

  datatype Error = MissingSizeLineEnd | IncompleteChunk

  // ---------- indexOf ----------

  /** The first index at which `part` occurs in `s`. */
  function IndexOf(s: string, part: string): (r: Option<nat>)
    ensures r.Some? ==> r.value + |part| <= |s|
  {
    if part <= s then Some(0)
    else if s == "" then None
    else
      var r := IndexOf(s[1..], part);
      if r.Some? then Some(r.value + 1) else None
  }

  /** `part` occurs at an index before `k`. */
  predicate OccursBefore(s: string, part: string, k: nat) {
    k > 0 && (part <= s || (s != "" && OccursBefore(s[1..], part, k - 1)))
  }

  lemma {:induction false} IndexOfIsFirst(s: string, part: string, k: nat)
    requires k + |part| <= |s| && s[k..k + |part|] == part && !OccursBefore(s, part, k)
    ensures IndexOf(s, part) == Some(k)
  {
    if k > 0 {
      assert s[1..][k - 1..k - 1 + |part|] == part;
      IndexOfIsFirst(s[1..], part, k - 1);
    }
  }

  // ---------- parseInt(line, 16) ----------

  function HexDigit(c: char): Option<nat> {
    if '0' <= c <= '9' then Some(c as nat - '0' as nat)
    else if 'a' <= c <= 'f' then Some(c as nat - 'a' as nat + 10)
    else if 'A' <= c <= 'F' then Some(c as nat - 'A' as nat + 10)
    else None
  }

  predicate IsHex(c: char) {
    HexDigit(c).Some?
  }

  predicate IsSpace(c: char) {
    c == ' ' || '\t' <= c <= '\r'
  }

  function SkipSpaces(s: string): string {
    if s != "" && IsSpace(s[0]) then SkipSpaces(s[1..]) else s
  }

  // The value of the leading hexadecimal digits, after digits worth `value`.
  function LeadingHex(s: string, value: nat): nat {
    if s != "" && IsHex(s[0]) then LeadingHex(s[1..], 16 * value + HexDigit(s[0]).value) else value
  }

  function Unsigned(s: string): Option<int> {
    var digits := if |s| >= 2 && s[0] == '0' && (s[1] == 'x' || s[1] == 'X') then s[2..] else s;
    if digits != "" && IsHex(digits[0]) then Some(LeadingHex(digits, 0)) else None
  }

  /** `parseInt(s, 16)`, where `None` is NaN: leading white space, a sign and a prefix "0x" are
      accepted, and everything after the digits is ignored. */
  function ParseInt16(s: string): Option<int> {
    var t := SkipSpaces(s);
    if t != "" && t[0] == '-' then
      match Unsigned(t[1..]) {
        case Some(n) => Some(-n)
        case None => None
      }
    else Unsigned(if t != "" && t[0] == '+' then t[1..] else t)
  }

  // ---------- slice ----------

  // A negative index counts from the end, and both are kept within the buffer.
  function Clamp(length: nat, i: int): nat {
    if i < 0 then if length + i < 0 then 0 else length + i else if i > length then length else i
  }

  function Slice(s: string, from: int, to: int): string {
    var a, b := Clamp(|s|, from), Clamp(|s|, to);
    if a <= b then s[a..b] else ""
  }

  // ---------- Specification ----------

  datatype Round = More(chunk: string, remaining: string) | Last | Error(error: Error)

  /** One round on a non-empty rest. Where the size is not a number, every index computed from it
      reads as 0. */
  function Decode1(remaining: string): Round {
    var sizeEnd := IndexOf(remaining, CRLF);
    if sizeEnd.None? then Error(MissingSizeLineEnd)
    else
      match ParseInt16(remaining[..sizeEnd.value])
      case None => More(Slice(remaining, sizeEnd.value + 2, 0), Slice(remaining, 0, |remaining|))
      case Some(size) =>
        if size == 0 then Last
        else
          var chunkStart := sizeEnd.value + 2;
          var chunkEnd := chunkStart + size;
          if chunkEnd > |remaining| then Error(IncompleteChunk)
          else More(Slice(remaining, chunkStart, chunkEnd), Slice(remaining, chunkEnd + 2, |remaining|))
  }

  /** The loop from `remaining` on, with `result` decoded so far. */
  function Decoded(remaining: string, result: string): Outcome
    decreases |remaining|
  {
    if remaining == "" then Body(result)
    else
      match Decode1(remaining)
      case Last => Body(result)
      case Error(error) => Failed(error)
      case More(chunk, rest) => if |rest| >= |remaining| then Hangs else Decoded(rest, result + chunk)
  }

  /** `processChunkedBody`. The source has no test for progress; a round that leaves `remaining` as
      it was is repeated for ever. */
  method ProcessChunkedBody(buffer: string) returns (r: Outcome)
    ensures r == Decoded(buffer, "")
  {
    var result := "";
    var remaining := buffer;
    while |remaining| > 0
      invariant Decoded(buffer, "") == Decoded(remaining, result)
      decreases |remaining|
    {
      var sizeEnd := IndexOf(remaining, CRLF);
      if sizeEnd.None? {
        return Failed(MissingSizeLineEnd);
      }
      var chunkSize := ParseInt16(remaining[..sizeEnd.value]);
      if chunkSize == Some(0) {
        break;
      }
      var chunkStart := sizeEnd.value + 2;
      if chunkSize.None? {
        return Hangs;
      }
      var chunkEnd := chunkStart + chunkSize.value;
      if chunkEnd > |remaining| {
        return Failed(IncompleteChunk);
      }
      var rest := Slice(remaining, chunkEnd + 2, |remaining|);
      if |rest| >= |remaining| {
        return Hangs;
      }
      result := result + Slice(remaining, chunkStart, chunkEnd);
      remaining := rest;
    }
    return Body(result);
  }

  /** A round goes on without progress exactly when the size line does not start with a number, or
      its negative size leads back to the start of the rest or before it. */
  lemma NoProgress(remaining: string)
    requires remaining != "" && Decode1(remaining).More?
    ensures var rest := Decode1(remaining).remaining;
            var lineEnd := IndexOf(remaining, CRLF).value;
            var size := ParseInt16(remaining[..lineEnd]);
            && |rest| <= |remaining|
            && (|rest| == |remaining| ==> rest == remaining)
            && (|rest| == |remaining| <==>
                  || size.None?
                  || lineEnd + size.value + 4 == 0
                  || lineEnd + size.value + 4 <= -|remaining|)
  {}

  // ---------- Encoding ----------

  /** A chunk as section 7.1 of RFC 9112 allows it: hexadecimal digits in any case and with leading
      zeros, an extension, and the data. */
  datatype Chunk = Chunk(size: string, extension: string, data: string)

  const LOWER_DIGITS := "0123456789abcdef"
  const UPPER_DIGITS := "0123456789ABCDEF"

  /** `s` is `n` in hexadecimal, by repeated division, in either case and with any number of leading
      zeros. */
  predicate Spells(s: string, n: nat) {
    if s == "" then n == 0
    else s[|s| - 1] in [LOWER_DIGITS[n % 16], UPPER_DIGITS[n % 16]] && Spells(s[..|s| - 1], n / 16)
  }

  predicate ValidExtension(e: string) {
    && (e != "" ==> e[0] == ';' || e[0] == ' ' || e[0] == '\t')
    && IndexOf(e, CRLF) == None
  }

  predicate ValidSizeLine(size: string, extension: string, n: nat) {
    size != "" && Spells(size, n) && ValidExtension(extension)
  }

  predicate ValidChunk(c: Chunk) {
    c.data != "" && ValidSizeLine(c.size, c.extension, |c.data|)
  }

  predicate ValidChunks(chunks: seq<Chunk>) {
    chunks == [] || (ValidChunk(chunks[0]) && ValidChunks(chunks[1..]))
  }

  function EncodedChunk(c: Chunk, rest: string): string {
    (c.size + c.extension) + (CRLF + (c.data + (CRLF + rest)))
  }

  /** The chunks, followed by `rest`. */
  function Encoded(chunks: seq<Chunk>, rest: string): string {
    if chunks == [] then rest else EncodedChunk(chunks[0], Encoded(chunks[1..], rest))
  }

  function Payload(chunks: seq<Chunk>): string {
    if chunks == [] then "" else chunks[0].data + Payload(chunks[1..])
  }

  // ---------- Digits ----------

  predicate AllHex(s: string) {
    s == "" || (IsHex(s[0]) && AllHex(s[1..]))
  }

  function HexValue(s: string, value: nat): nat
    requires AllHex(s)
  {
    if s == "" then value else HexValue(s[1..], 16 * value + HexDigit(s[0]).value)
  }

  lemma LowerDigitIsRead(d: nat)
    requires d < 16
    ensures HexDigit(LOWER_DIGITS[d]) == Some(d)
  {
    var s := LOWER_DIGITS;
    assert s[0] == '0' && s[1] == '1' && s[2] == '2' && s[3] == '3' && s[4] == '4' && s[5] == '5' && s[6] == '6' && s[7] == '7';
    assert s[8] == '8' && s[9] == '9' && s[10] == 'a' && s[11] == 'b' && s[12] == 'c' && s[13] == 'd' && s[14] == 'e' && s[15] == 'f';
  }

  lemma UpperDigitIsRead(d: nat)
    requires d < 16
    ensures HexDigit(UPPER_DIGITS[d]) == Some(d)
  {
    var s := UPPER_DIGITS;
    assert s[0] == '0' && s[1] == '1' && s[2] == '2' && s[3] == '3' && s[4] == '4' && s[5] == '5' && s[6] == '6' && s[7] == '7';
    assert s[8] == '8' && s[9] == '9' && s[10] == 'A' && s[11] == 'B' && s[12] == 'C' && s[13] == 'D' && s[14] == 'E' && s[15] == 'F';
  }

  lemma {:induction false} HexValueSnoc(s: string, c: char, value: nat)
    requires AllHex(s) && IsHex(c)
    ensures AllHex(s + [c]) && HexValue(s + [c], value) == 16 * HexValue(s, value) + HexDigit(c).value
  {
    if s == "" {
      assert s + [c] == [c] && [c][1..] == "";
    } else {
      assert (s + [c])[1..] == s[1..] + [c];
      HexValueSnoc(s[1..], c, 16 * value + HexDigit(s[0]).value);
    }
  }

  lemma {:induction false} SpellingHasValue(s: string, n: nat)
    requires Spells(s, n)
    ensures AllHex(s) && HexValue(s, 0) == n
  {
    if s != "" {
      var start, last := s[..|s| - 1], s[|s| - 1];
      LowerDigitIsRead(n % 16);
      UpperDigitIsRead(n % 16);
      SpellingHasValue(start, n / 16);
      HexValueSnoc(start, last, 0);
      assert s == start + [last];
    }
  }

  function Digits(upper: bool): (digits: string)
    ensures |digits| == 16
  {
    if upper then UPPER_DIGITS else LOWER_DIGITS
  }

  /** The standard spelling of a number. */
  function Hexadecimal(n: nat, upper: bool): string {
    if n < 16 then [Digits(upper)[n]] else Hexadecimal(n / 16, upper) + [Digits(upper)[n % 16]]
  }

  function Zeros(k: nat): string {
    if k == 0 then "" else Zeros(k - 1) + "0"
  }

  lemma SpellsSnoc(s: string, c: char, n: nat)
    requires Spells(s, n / 16) && (c == LOWER_DIGITS[n % 16] || c == UPPER_DIGITS[n % 16])
    ensures Spells(s + [c], n)
  {
    assert (s + [c])[..|s|] == s;
  }

  lemma {:induction false} ZerosSpell(k: nat)
    ensures Spells(Zeros(k), 0)
  {
    if k > 0 {
      ZerosSpell(k - 1);
      assert LOWER_DIGITS[0] == '0';
      SpellsSnoc(Zeros(k - 1), '0', 0);
    }
  }

  lemma {:induction false} StandardSpells(n: nat, k: nat, upper: bool)
    ensures Spells(Zeros(k) + Hexadecimal(n, upper), n)
    decreases n
  {
    var last := Digits(upper)[n % 16];
    if n < 16 {
      ZerosSpell(k);
      SpellsSnoc(Zeros(k), last, n);
    } else {
      StandardSpells(n / 16, k, upper);
      SpellsSnoc(Zeros(k) + Hexadecimal(n / 16, upper), last, n);
      Associates(Zeros(k), Hexadecimal(n / 16, upper), [last]);
    }
  }

  lemma Associates(a: string, b: string, c: string)
    ensures a + (b + c) == (a + b) + c
  {
  }

  lemma NoExtension()
    ensures ValidExtension("")
  {
  }

  /** Every number is read off its standard spelling, in either case, with any number of leading zeros. */
  lemma StandardIsRead(n: nat, k: nat, upper: bool)
    ensures ParseInt16(Zeros(k) + Hexadecimal(n, upper)) == Some(n)
  {
    var s := Zeros(k) + Hexadecimal(n, upper);
    StandardSpells(n, k, upper);
    NoExtension();
    SizeLineValue(s, "", n);
    assert s + "" == s;
  }

  /** The hexadecimal digits are those of the two spellings. */
  lemma HexDigitsAre(c: char)
    ensures IsHex(c) <==> c in LOWER_DIGITS || c in UPPER_DIGITS
  {
    var s, t := LOWER_DIGITS, UPPER_DIGITS;
    if IsHex(c) {
      LowerDigitIsRead(HexDigit(c).value);
      UpperDigitIsRead(HexDigit(c).value);
      assert c == s[HexDigit(c).value] || c == t[HexDigit(c).value];
    } else {
      forall d: nat | d < 16 ensures c != s[d] && c != t[d] {
        LowerDigitIsRead(d);
        UpperDigitIsRead(d);
      }
    }
  }

  predicate Spaces(s: string) {
    forall c <- s :: c in "\t\n\U{0B}\U{0C}\r "
  }

  lemma {:induction false} SpacesSkipped(spaces: string, rest: string)
    requires Spaces(spaces) && (rest != "" ==> !IsSpace(rest[0]))
    ensures SkipSpaces(spaces + rest) == rest
  {
    if spaces == "" {
      assert spaces + rest == rest;
    } else {
      assert (spaces + rest)[1..] == spaces[1..] + rest;
      assert spaces[0] in spaces;
      SpacesSkipped(spaces[1..], rest);
    }
  }

  lemma {:induction false} SpellingIsRead(digits: string, n: nat, rest: string)
    requires digits != "" && Spells(digits, n) && (rest != "" ==> rest[0] !in LOWER_DIGITS && rest[0] !in UPPER_DIGITS)
    ensures digits + rest != "" && IsHex((digits + rest)[0]) && LeadingHex(digits + rest, 0) == n
  {
    SpellingHasValue(digits, n);
    if rest != "" {
      HexDigitsAre(rest[0]);
    }
    LeadingHexStops(digits, rest, 0);
  }

  lemma PrefixIsRead(prefix: string, digits: string, n: nat, rest: string)
    requires prefix in ["", "0x", "0X"] && digits != "" && Spells(digits, n)
    requires rest != "" ==> rest[0] !in LOWER_DIGITS && rest[0] !in UPPER_DIGITS
    requires prefix == "" && rest != "" ==> rest[0] != 'x' && rest[0] != 'X'
    ensures Unsigned(prefix + (digits + rest)) == Some(n)
  {
    var s := prefix + (digits + rest);
    SpellingIsRead(digits, n, rest);
    if prefix == "" {
      assert s == digits + rest;
      SpellingHasValue(digits, n);
      assert |s| >= 2 ==> s[1] == if |digits| >= 2 then digits[1] else rest[0];
      assert |digits| >= 2 ==> AllHex(digits[1..]) && IsHex(digits[1..][0]);
    } else {
      assert s[0] == '0' && (s[1] == 'x' || s[1] == 'X') && s[2..] == digits + rest;
    }
  }

  function Signed(sign: string, n: int): int {
    if sign == "-" then -n else n
  }

  /** `parseInt(s, 16)` on white space, a sign, a prefix, digits in either case and anything that goes on
      differently. */
  lemma NumberIsRead(spaces: string, sign: string, prefix: string, digits: string, n: nat, rest: string)
    requires Spaces(spaces) && sign in ["", "+", "-"] && prefix in ["", "0x", "0X"] && digits != "" && Spells(digits, n)
    requires rest != "" ==> rest[0] !in LOWER_DIGITS && rest[0] !in UPPER_DIGITS
    requires prefix == "" && rest != "" ==> rest[0] != 'x' && rest[0] != 'X'
    ensures var read := ParseInt16(spaces + (sign + (prefix + (digits + rest)))); read.Some? && read.value == Signed(sign, n)
  {
    var number := prefix + (digits + rest);
    PrefixIsRead(prefix, digits, n, rest);
    SpellingHasValue(digits, n);
    assert number[0] == if prefix == "" then digits[0] else '0';
    assert (sign + number)[|sign|..] == number && (sign == "" ==> sign + number == number);
    assert (sign + number)[0] == if sign == "" then number[0] else sign[0];
    SpacesSkipped(spaces, sign + number);
  }

  // ---------- Decoding what was encoded ----------

  lemma {:induction false} NotInPrefix(line: string, rest: string)
    requires IndexOf(line, CRLF) == None
    ensures !OccursBefore(line + (CRLF + rest), CRLF, |line|)
  {
    if line != "" {
      var all := line + (CRLF + rest);
      assert all[1..] == line[1..] + (CRLF + rest);
      NotInPrefix(line[1..], rest);
      assert |line| >= 2 ==> all[..2] == line[..2];
      assert |line| == 1 ==> all[1] == '\r';
    }
  }

  /** The size line ends at its own line end. */
  lemma SizeLineEnd(line: string, rest: string)
    requires IndexOf(line, CRLF) == None
    ensures IndexOf(line + (CRLF + rest), CRLF) == Some(|line|)
  {
    var all := line + (CRLF + rest);
    NotInPrefix(line, rest);
    assert all[|line|..|line| + 2] == CRLF;
    IndexOfIsFirst(all, CRLF, |line|);
  }

  lemma {:induction false} HexHasNoLineEnd(size: string, extension: string)
    requires AllHex(size) && IndexOf(extension, CRLF) == None
    ensures IndexOf(size + extension, CRLF) == None
  {
    if size == "" {
      assert size + extension == extension;
    } else {
      assert (size + extension)[1..] == size[1..] + extension;
      HexHasNoLineEnd(size[1..], extension);
    }
  }

  lemma {:induction false} LeadingHexStops(size: string, extension: string, value: nat)
    requires AllHex(size) && (extension != "" ==> !IsHex(extension[0]))
    ensures LeadingHex(size + extension, value) == HexValue(size, value)
  {
    if size == "" {
      assert size + extension == extension;
    } else {
      assert (size + extension)[1..] == size[1..] + extension;
      LeadingHexStops(size[1..], extension, 16 * value + HexDigit(size[0]).value);
    }
  }

  /** `parseInt` reads the size off the size line. */
  lemma SizeLineValue(size: string, extension: string, n: nat)
    requires ValidSizeLine(size, extension, n)
    ensures ParseInt16(size + extension) == Some(n)
  {
    SpellingHasValue(size, n);
    var line := size + extension;
    assert line[0] == size[0] && IsHex(line[0]);
    assert SkipSpaces(line) == line;
    if |line| >= 2 {
      assert line[1] == (if |size| >= 2 then size[1] else extension[0]);
      assert |size| >= 2 ==> AllHex(size[1..]) && IsHex(size[1..][0]);
    }
    LeadingHexStops(size, extension, 0);
  }

  lemma ChunkParts(line: string, data: string, rest: string)
    ensures var all := line + (CRLF + (data + (CRLF + rest)));
            var start := |line| + 2;
            && all[..|line|] == line
            && start + |data| + 2 <= |all|
            && all[start..start + |data|] == data
            && all[start + |data| + 2..] == rest
  {
  }

  lemma SizeLineReads(size: string, extension: string, n: nat, rest: string)
    requires ValidSizeLine(size, extension, n)
    ensures var line := size + extension;
            IndexOf(line + (CRLF + rest), CRLF) == Some(|line|) && ParseInt16(line) == Some(n)
  {
    SpellingHasValue(size, n);
    HexHasNoLineEnd(size, extension);
    SizeLineEnd(size + extension, rest);
    SizeLineValue(size, extension, n);
  }

  lemma DecodeOneChunk(c: Chunk, rest: string)
    requires ValidChunk(c)
    ensures Decode1(EncodedChunk(c, rest)) == More(c.data, rest)
  {
    SizeLineReads(c.size, c.extension, |c.data|, c.data + (CRLF + rest));
    ChunkParts(c.size + c.extension, c.data, rest);
  }

  /** Every chunked body decodes to what comes after its chunks, behind their data. */
  lemma {:induction false} DecodeChunks(chunks: seq<Chunk>, rest: string, result: string)
    requires ValidChunks(chunks)
    ensures Decoded(Encoded(chunks, rest), result) == Decoded(rest, result + Payload(chunks))
  {
    if chunks == [] {
      assert result + "" == result;
    } else {
      var later := Encoded(chunks[1..], rest);
      DecodeOneChunk(chunks[0], later);
      assert (result + chunks[0].data) + Payload(chunks[1..]) == result + (chunks[0].data + Payload(chunks[1..]));
      DecodeChunks(chunks[1..], rest, result + chunks[0].data);
    }
  }

  /** The last chunk: a size line worth zero, and anything after it. */
  function LastChunk(size: string, extension: string, anything: string): string {
    (size + extension) + (CRLF + anything)
  }

  /** Decoding a framed body gives the concatenated payload, whatever the chunk boundaries, the case
      of the digits, the extensions and the trailer. */
  lemma DecodeEncoded(chunks: seq<Chunk>, size: string, extension: string, trailer: string)
    requires ValidChunks(chunks) && ValidSizeLine(size, extension, 0)
    ensures Decoded(Encoded(chunks, LastChunk(size, extension, trailer)), "") == Body(Payload(chunks))
  {
    var last := LastChunk(size, extension, trailer);
    DecodeChunks(chunks, last, "");
    SizeLineReads(size, extension, 0, trailer);
    assert last[..|size + extension|] == size + extension;
    assert "" + Payload(chunks) == Payload(chunks);
  }

  /** Cut off anywhere inside a chunk's data, the body is refused. */
  lemma TruncatedFails(chunks: seq<Chunk>, c: Chunk, kept: nat)
    requires ValidChunks(chunks) && ValidChunk(c) && kept < |c.data|
    ensures Decoded(Encoded(chunks, (c.size + c.extension) + (CRLF + c.data[..kept])), "") == Failed(IncompleteChunk)
  {
    var line := c.size + c.extension;
    var rest := line + (CRLF + c.data[..kept]);
    DecodeChunks(chunks, rest, "");
    SizeLineReads(c.size, c.extension, |c.data|, c.data[..kept]);
    assert rest[..|line|] == line;
  }

  /** A size line that starts with a hexadecimal digit can still read as NaN. */
  lemma HexDigitIsNotEnough()
    ensures IsHex("0x\r\n"[0]) && Decoded("0x\r\n", "") == Hangs
  {
    var s := "0x\r\n";
    assert s[0] != CRLF[0] && s[1..][0] != CRLF[0] && s[1..][1..] == CRLF;
    assert IndexOf(s[1..][1..], CRLF) == Some(0);
    assert IndexOf(s, CRLF) == Some(2);
    assert s[..2] == "0x" && SkipSpaces(s[..2]) == s[..2] && s[..2][2..] == "";
    assert ParseInt16(s[..2]) == None;
  }
}
