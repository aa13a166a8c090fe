/**
 `AzleSocket`: the response of a Node server is collected from its writes, split into head and
 body, dechunked and turned into the reply of a canister.
 */
module ServerReply {
  import opened Wrappers
  import opened ChunkedBody

  /** What a server writes: something with a `byteLength`, a string (here in UTF-8), another object
      (by its `toString()`), null or undefined, or a value that is none of these and is dropped. */
  datatype Data =
    | Buffer(bytes: string)
    | Str(utf8: string)
    | Object(text: string)
    | Nullish
    | Dropped
  {
    function Bytes(): string {
      match this
      case Buffer(bytes) => bytes
      case Str(utf8) => utf8
      case Object(text) => text
      case Nullish => ""
      case Dropped => ""
    }
  }

  datatype Header = Header(name: string, value: string)

  datatype ServerResponse = ServerResponse(statusCode: nat, headers: seq<Header>)

  datatype Reply = Reply(statusCode: nat, headers: seq<Header>, body: string)

  datatype Ended =
    | Replied(reply: Reply)
    | BodyError(error: Error)
    | ResUndefined
    | NeverReturns

  const BLANK_LINE := "\r\n\r\n"

  // ---------- Specification ----------

  function LowerOf(c: char): char {
    if 'A' <= c <= 'Z' then (c as int + 32) as char else c
  }

  function Lower(s: string): string {
    if s == "" then "" else [LowerOf(s[0])] + Lower(s[1..])
  }

  function LowerAll(names: seq<string>): seq<string> {
    if names == [] then [] else [Lower(names[0])] + LowerAll(names[1..])
  }

  predicate Reserved(h: Header) {
    Lower(h.name) == "content-length" || Lower(h.name) == "transfer-encoding"
  }

  /** The headers passed on, in order. */
  function PassedOn(headers: seq<Header>): seq<Header> {
    if headers == [] then []
    else if Reserved(headers[0]) then PassedOn(headers[1..])
    else [headers[0]] + PassedOn(headers[1..])
  }

  /** Where the body starts. Without a blank line, `indexOf` is -1 and the body starts at 3. */
  function BodyStart(data: string): (n: nat)
    ensures n <= |data| || n == 3
  {
    match IndexOf(data, BLANK_LINE)
    case Some(i) => i + 4
    case None => 3
  }

  function Head(data: string): string {
    Slice(data, 0, BodyStart(data))
  }

  function RawBody(data: string): string {
    Slice(data, BodyStart(data), |data|)
  }

  /** `names` parses the header names out of a head. */
  function BodyOf(names: string -> seq<string>, data: string): Outcome {
    if "transfer-encoding" in LowerAll(names(Head(data))) then Decoded(RawBody(data), "") else Body(RawBody(data))
  }

  function EndOf(names: string -> seq<string>, data: string, res: Option<ServerResponse>): Ended {
    match BodyOf(names, data)
    case Hangs => NeverReturns
    case Failed(error) => BodyError(error)
    case Body(body) =>
      if res.None? then ResUndefined
      else Replied(Reply(res.value.statusCode, PassedOn(res.value.headers), body))
  }

  function Joined(pieces: seq<Data>): string {
    if pieces == [] then "" else Joined(pieces[..|pieces| - 1]) + pieces[|pieces| - 1].Bytes()
  }

  // ---------- Upper and lower case ----------

  const CAPITALS := "ABCDEFGHIJKLMNOPQRSTUVWXYZ"
  const SMALL_LETTERS := "abcdefghijklmnopqrstuvwxyz"

  /** The same character, or a small letter in place of a capital. */
  ghost predicate SameLetter(c: char, small: char) {
    c == small || exists k :: 0 <= k < 26 && CAPITALS[k] == c && SMALL_LETTERS[k] == small
  }

  /** A spelling of a word in small letters that may have capitals. */
  ghost predicate CaseVariant(s: string, word: string) {
    |s| == |word| && forall i :: 0 <= i < |s| ==> SameLetter(s[i], word[i])
  }

  predicate NoCapitals(word: string) {
    forall i :: 0 <= i < |word| ==> !('A' <= word[i] <= 'Z')
  }

  lemma AlphabetStart(k: nat)
    requires k < 13
    ensures CAPITALS[k] as int == 'A' as int + k && SMALL_LETTERS[k] as int == 'a' as int + k
  {
  }

  lemma AlphabetEnd(k: nat)
    requires 13 <= k < 26
    ensures CAPITALS[k] as int == 'A' as int + k && SMALL_LETTERS[k] as int == 'a' as int + k
  {
  }

  lemma AlphabetAt(k: nat)
    requires k < 26
    ensures CAPITALS[k] as int == 'A' as int + k && SMALL_LETTERS[k] as int == 'a' as int + k
  {
    if k < 13 {
      AlphabetStart(k);
    } else {
      AlphabetEnd(k);
    }
  }

  lemma LetterIsLowered(c: char, small: char)
    requires !('A' <= small <= 'Z')
    ensures LowerOf(c) == small <==> SameLetter(c, small)
  {
    if 'A' <= c <= 'Z' {
      var at := c as int - 'A' as int;
      AlphabetAt(at);
      if SameLetter(c, small) {
        var k :| 0 <= k < 26 && CAPITALS[k] == c && SMALL_LETTERS[k] == small;
        AlphabetAt(k);
      }
    } else if SameLetter(c, small) && c != small {
      var k :| 0 <= k < 26 && CAPITALS[k] == c && SMALL_LETTERS[k] == small;
      AlphabetAt(k);
    }
  }

  lemma {:induction false} LowerAt(s: string, i: nat)
    requires i < |s|
    ensures |Lower(s)| == |s| && Lower(s)[i] == LowerOf(s[i])
  {
    if |s| > 1 {
      LowerAt(s[1..], if i > 0 then i - 1 else 0);
    }
  }

  /** A text in lower case is a given word exactly if it is that word up to capitals. */
  lemma LowerIsWord(s: string, word: string)
    requires NoCapitals(word)
    ensures Lower(s) == word <==> CaseVariant(s, word)
  {
    if s != "" {
      LowerAt(s, 0);
    }
    if |s| == |word| {
      forall i | 0 <= i < |s| ensures Lower(s)[i] == word[i] <==> SameLetter(s[i], word[i]) {
        LowerAt(s, i);
        LetterIsLowered(s[i], word[i]);
      }
    }
  }

  /** A name among the headers of a head, in any case. */
  ghost predicate Names(names: seq<string>, word: string) {
    exists name <- names :: CaseVariant(name, word)
  }

  lemma {:induction false} LowerAllHas(names: seq<string>, word: string)
    requires NoCapitals(word)
    ensures word in LowerAll(names) <==> Names(names, word)
  {
    if names != [] {
      LowerIsWord(names[0], word);
      LowerAllHas(names[1..], word);
      assert names == [names[0]] + names[1..];
    }
  }

  /** Exactly these two headers are not passed on, in whatever case they are written. */
  lemma ReservedExactly(h: Header)
    ensures Reserved(h) <==> CaseVariant(h.name, "content-length") || CaseVariant(h.name, "transfer-encoding")
  {
    LowerIsWord(h.name, "content-length");
    LowerIsWord(h.name, "transfer-encoding");
  }

  /** The other headers are passed on in their order, each as often as it was there. */
  lemma {:induction false} PassedOnInOrder(a: seq<Header>, b: seq<Header>)
    ensures PassedOn(a + b) == PassedOn(a) + PassedOn(b)
  {
    if a == [] {
      assert a + b == b;
    } else {
      assert (a + b)[1..] == a[1..] + b;
      PassedOnInOrder(a[1..], b);
    }
  }

  /** Exactly the headers other than these two are passed on. */
  lemma {:induction false} PassedOnExactly(headers: seq<Header>, h: Header)
    ensures h in PassedOn(headers) <==>
            h in headers && !CaseVariant(h.name, "content-length") && !CaseVariant(h.name, "transfer-encoding")
  {
    ReservedExactly(h);
    if headers != [] {
      PassedOnExactly(headers[1..], h);
      assert headers == [headers[0]] + headers[1..];
    }
  }

  // ---------- The socket ----------

  class AzleSocket {
    var responseData: string
    var res: Option<ServerResponse>

    constructor ()
      ensures responseData == "" && res == None
    {
      responseData, res := "", None;
    }

    /** `rejected`: the promise of the write is rejected, as null and undefined have no properties. */
    method Write(data: Data) returns (rejected: bool)
      modifies this`responseData
      ensures responseData == old(responseData) + data.Bytes()
      ensures rejected <==> data.Nullish?
    {
      rejected := false;
      match data {
        case Buffer(bytes) => responseData := responseData + bytes;
        case Str(utf8) => responseData := responseData + utf8;
        case Object(text) => responseData := responseData + text;
        case Nullish =>
          rejected := true;
          assert responseData + "" == responseData;
        case Dropped => assert responseData + "" == responseData;
      }
    }

    method End(names: string -> seq<string>) returns (ended: Ended)
      ensures ended == EndOf(names, responseData, res)
    {
      var blank := IndexOf(responseData, BLANK_LINE);
      var startIndex := (if blank.Some? then blank.value as int else -1) + 4;
      var isChunked := "transfer-encoding" in LowerAll(names(Slice(responseData, 0, startIndex)));
      var slicedBody := Slice(responseData, startIndex, |responseData|);
      var unchunked := Body(slicedBody);
      if isChunked {
        unchunked := ProcessChunkedBody(slicedBody);
      }
      match unchunked {
        case Hangs => ended := NeverReturns;
        case Failed(error) => ended := BodyError(error);
        case Body(body) =>
          if res.None? {
            ended := ResUndefined;
          } else {
            ended := Replied(Reply(res.value.statusCode, PassedOn(res.value.headers), body));
          }
      }
    }
  }

  /** A response in any number of writes ends as its bytes do in one; a rejected write adds nothing. */
  method Respond(names: string -> seq<string>, res: ServerResponse, pieces: seq<Data>) returns (ended: Ended)
    ensures ended == EndOf(names, Joined(pieces), Some(res))
  {
    var socket := new AzleSocket();
    socket.res := Some(res);
    var i := 0;
    while i < |pieces|
      invariant 0 <= i <= |pieces|
      invariant socket.responseData == Joined(pieces[..i]) && socket.res == Some(res)
    {
      assert pieces[..i + 1][..i] == pieces[..i];
      var rejected := socket.Write(pieces[i]);
      i := i + 1;
    }
    assert pieces[..i] == pieces;
    ended := socket.End(names);
  }

  // ---------- What is replied ----------

  /** A head without a blank line of its own: the first one is the one after it. */
  predicate IsHead(head: string) {
    !OccursBefore(head + BLANK_LINE, BLANK_LINE, |head|)
  }

  lemma {:induction false} OccursInPrefix(s: string, rest: string, part: string, k: nat)
    requires k + |part| <= |s| + 1
    ensures OccursBefore(s + rest, part, k) == OccursBefore(s, part, k)
    decreases k
  {
    if k > 0 {
      assert |part| <= |s| && (s + rest)[..|part|] == s[..|part|];
      if s != "" {
        assert (s + rest)[1..] == s[1..] + rest;
        OccursInPrefix(s[1..], rest, part, k - 1);
      }
    }
  }

  /** Head and body are cut at the first blank line, whatever the body holds. */
  lemma CutAtBlankLine(head: string, body: string)
    requires IsHead(head)
    ensures var data := (head + BLANK_LINE) + body; Head(data) == head + BLANK_LINE && RawBody(data) == body
  {
    var data := (head + BLANK_LINE) + body;
    OccursInPrefix(head + BLANK_LINE, body, BLANK_LINE, |head|);
    assert data[|head|..|head| + 4] == BLANK_LINE;
    IndexOfIsFirst(data, BLANK_LINE, |head|);
    assert data[..|head| + 4] == head + BLANK_LINE && data[|head| + 4..] == body;
  }

  /** In any number of writes, the reply carries the body as it is, or dechunked when the head has a
      transfer-encoding header in any case. */
  lemma {:induction false} ReplyBody(names: string -> seq<string>, res: ServerResponse, pieces: seq<Data>, head: string, body: string)
    requires IsHead(head) && Joined(pieces) == (head + BLANK_LINE) + body
    ensures var ended := EndOf(names, Joined(pieces), Some(res));
            if Names(names(head + BLANK_LINE), "transfer-encoding") then
              (forall payload :: Decoded(body, "") == Body(payload) ==>
                 ended == Replied(Reply(res.statusCode, PassedOn(res.headers), payload)))
            else ended == Replied(Reply(res.statusCode, PassedOn(res.headers), body))
  {
    CutAtBlankLine(head, body);
    LowerAllHas(names(head + BLANK_LINE), "transfer-encoding");
  }

  /** A chunked response: neither the writes nor the chunks show in the reply. */
  lemma ChunkedReply(
    names: string -> seq<string>, res: ServerResponse, pieces: seq<Data>, head: string,
    chunks: seq<Chunk>, size: string, extension: string, trailer: string)
    requires IsHead(head) && Names(names(head + BLANK_LINE), "transfer-encoding")
    requires ValidChunks(chunks) && ValidSizeLine(size, extension, 0)
    requires Joined(pieces) == (head + BLANK_LINE) + Encoded(chunks, LastChunk(size, extension, trailer))
    ensures EndOf(names, Joined(pieces), Some(res)) ==
            Replied(Reply(res.statusCode, PassedOn(res.headers), Payload(chunks)))
  {
    var body := Encoded(chunks, LastChunk(size, extension, trailer));
    ReplyBody(names, res, pieces, head, body);
    DecodeEncoded(chunks, size, extension, trailer);
  }
}
