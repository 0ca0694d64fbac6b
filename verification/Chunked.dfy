/** The decoder of the chunked transfer coding of section 4.1 of RFC 7230. */
module Chunked {
  import opened Text
  import opened HexNumbers
  import opened CharStreams

  /** What follows the first line of `r`. */
  function AfterLine(r: string): (s: string)
    ensures |s| <= |r|
  {
    var n := FindFirstOf(r, {'\n'});
    if n < |r| then r[n + 1..] else ""
  }

  /** The data of one chunk of size `len` at the front of `body`: all there is when there is less. */
  function Part(len: nat, body: string): string {
    if len <= |body| then body[..len] else body
  }

  /** What `read_chunked_encoding` gathers: it stops at a zero size and at anything that is not a size. */
  function Decode(r: string): (data: string)
    ensures |data| <= |r|
    decreases |r|
  {
    var (size, rest) := HexNumber(SkipSpace(r));
    if size == None || size.value == 0 then ""
    else
      var body := AfterLine(rest);
      Part(size.value, body) + (if size.value <= |body| then Decode(body[size.value..]) else "")
  }

  /** What the decoder leaves: it goes no further than the size that it stops at. */
  function Undecoded(r: string): string
    decreases |r|
  {
    var (size, rest) := HexNumber(SkipSpace(r));
    if size == None || size.value == 0 then rest
    else
      var body := AfterLine(rest);
      if size.value <= |body| then Undecoded(body[size.value..]) else ""
  }

  lemma UndecodedStep(r: string)
    ensures var (size, rest) := HexNumber(SkipSpace(r));
            && (size == None || size == Some(0) ==> Undecoded(r) == rest)
            && (size.Some? && size.value > 0 ==>
                  var body := AfterLine(rest);
                  Undecoded(r) == if size.value <= |body| then Undecoded(body[size.value..]) else "")
  {
  }

  /** One round of the decoder's loop. */
  lemma DecodeStep(r: string)
    ensures var (size, rest) := HexNumber(SkipSpace(r));
            && (size == None || size == Some(0) ==> Decode(r) == "")
            && (size.Some? && size.value > 0 ==>
                  var body := AfterLine(rest);
                  && |body| < |r|
                  && Decode(r) == Part(size.value, body) +
                                  if size.value <= |body| then Decode(body[size.value..]) else "")
  {
  }

  /** `read_chunked_encoding` */
  method ReadChunkedEncoding(src: CharStream) returns (data: string)
    requires src.Valid()
    modifies src`pos, src`eofbit, src`failbit
    ensures src.Valid()
    ensures data == Decode(old(src.Readable()))
    ensures |data| <= |old(src.Readable())|
    ensures old(src.Good()) ==> src.Rest() == Undecoded(old(src.Rest()))
    ensures !old(src.Good()) ==> src.failbit && src.Rest() == old(src.Rest())
  {
    ghost var r := src.Readable();
    data := "";
    var more := true;
    while more
      invariant src.Valid()
      invariant data + (if more then Decode(src.Readable()) else "") == Decode(r)
      invariant old(src.Good()) ==>
                  (if more then src.Good() && Undecoded(src.Rest()) == Undecoded(old(src.Rest()))
                   else src.Rest() == Undecoded(old(src.Rest())))
      invariant !old(src.Good()) ==> src.Rest() == old(src.Rest()) && if more then !src.Good() else src.failbit
      decreases if more then 1 + |src.Rest()| else 0
    {
      ghost var sofar := data;
      var part;
      part, more := ReadChunk(src);
      data := data + part;
      Assoc(sofar, part, if more then Decode(src.Readable()) else "");
    }
  }

  /** The loop's condition and body: whether it may go on, and what it appends. */
  method ReadChunk(src: CharStream) returns (part: string, more: bool)
    requires src.Valid()
    modifies src`pos, src`eofbit, src`failbit
    ensures src.Valid()
    ensures Decode(old(src.Readable())) == part + if more then Decode(src.Readable()) else ""
    ensures more ==> |src.Rest()| < |old(src.Rest())| && src.Good()
    ensures old(src.Good()) ==>
              Undecoded(old(src.Rest())) == if more then Undecoded(src.Rest()) else src.Rest()
    ensures !old(src.Good()) ==> src.failbit && src.Rest() == old(src.Rest()) && !more
  {
    DecodeStep(src.Readable());
    UndecodedStep(src.Rest());
    var len := ReadHead(src);
    if len == 0 {
      return "", false;
    }
    part, more := CopyChunk(src, len, src.Readable());
  }

  /** The size of a chunk, zero when there is none, and then the rest of its line. */
  method ReadHead(src: CharStream) returns (len: nat)
    requires src.Valid()
    modifies src`pos, src`eofbit, src`failbit
    ensures src.Valid()
    ensures !old(src.Good()) ==> len == 0 && src.failbit && src.Rest() == old(src.Rest())
    ensures old(src.Good()) ==>
              var (size, rest) := HexNumber(SkipSpace(old(src.Rest())));
              && len == size.GetOr(0)
              && (len == 0 ==> src.Rest() == rest)
              && (len > 0 ==> src.Readable() == AfterLine(rest) && (src.Good() || src.Rest() == ""))
  {
    len := src.ReadHex();
    if src.failbit {
      return 0;
    }
    if len > 0 {
      SkipLine(src);
    }
  }

  /** The rest of the size's line is read and dropped: the data starts on the next one. */
  method SkipLine(src: CharStream)
    requires src.Valid() && !src.failbit && (src.eofbit ==> src.Rest() == "")
    modifies src`pos, src`eofbit, src`failbit
    ensures src.Valid()
    ensures src.Readable() == AfterLine(old(src.Rest()))
    ensures !src.Good() ==> src.Rest() == ""
  {
    var line := src.GetLine("", '\n');
  }

  /** Copies up to `size` characters; `done` says that so many were there. */
  method CopyChunk(src: CharStream, size: nat, ghost body: string) returns (part: string, done: bool)
    requires src.Valid() && size > 0
    requires body == src.Readable() && (src.Good() || src.Rest() == "")
    modifies src`pos, src`eofbit, src`failbit
    ensures src.Valid()
    ensures part == Part(size, body)
    ensures done == (size <= |body|)
    ensures if done then src.Good() && src.Rest() == body[size..] else src.Rest() == ""
  {
    part := "";
    var len := size;
    while len > 0
      invariant src.Valid() && |part| + len == size
      invariant src.Good() ==> body == part + src.Rest()
      invariant !src.Good() ==> len == size && body == "" && src.Rest() == ""
    {
      if src.Rest() != "" {
        MoveOne(part, src.Rest());
      }
      var c := src.Get();
      if c == None {
        done := false;
        return;
      }
      part := part + [c.value];
      len := len - 1;
    }
    done := true;
  }

  // ----- the coding

  /** A chunk: its size in hexadecimal, its extensions and its data. */
  datatype Chunk = Chunk(size: string, ext: string, data: string)

  /** Digits with a value that a 64-bit size can hold. */
  ghost predicate IsSize(s: string) {
    s != "" && (forall i :: 0 <= i < |s| ==> s[i] in HEX_DIGITS) && HexValue(s) < SIZE_LIMIT
  }

  ghost predicate IsExt(s: string) {
    (s == "" || s[0] == ';') && Free(s, {'\n'})
  }

  ghost predicate IsChunk(c: Chunk) {
    Writes(c.size, |c.data|) && IsExt(c.ext) && 0 < |c.data| <= 0xFFFF_FFFF_FFFF_FFFF
  }

  lemma ChunkSize(c: Chunk)
    ensures IsChunk(c) ==> IsSize(c.size) && HexValue(c.size) == |c.data|
    ensures Writes(c.size, 0) ==> IsSize(c.size) && HexValue(c.size) == 0
  {
    WritesIff(c.size, |c.data|);
    WritesIff(c.size, 0);
  }

  function HeadLine(size: string, ext: string): string {
    size + (ext + "\r\n")
  }

  /** The chunks, and the last chunk of size zero followed by whatever trailer there is. */
  function Encode(cs: seq<Chunk>, last: Chunk): string {
    if cs == [] then HeadLine(last.size, last.ext) + last.data
    else HeadLine(cs[0].size, cs[0].ext) + (cs[0].data + ("\r\n" + Encode(cs[1..], last)))
  }

  function Body(cs: seq<Chunk>): string {
    if cs == [] then "" else cs[0].data + Body(cs[1..])
  }

  ghost predicate Encodable(cs: seq<Chunk>, last: Chunk) {
    && (forall i :: 0 <= i < |cs| ==> IsChunk(cs[i]))
    && Writes(last.size, 0) && IsExt(last.ext)
  }

  /** What stands before a chunk: nothing, or the end of the chunk before. */
  predicate IsLead(s: string) {
    s == "" || s == "\r\n"
  }

  lemma SkipSpaceAt(spaces: string, r: string)
    requires forall i :: 0 <= i < |spaces| ==> spaces[i] in WHITESPACE
    requires r == "" || r[0] !in WHITESPACE
    ensures SkipSpace(spaces + r) == r
  {
    FindFirstNotOfAt(spaces, r, WHITESPACE);
  }

  /** What follows the size on its line, and the rest of the text. */
  function ExtLine(ext: string, tail: string): string {
    ext + "\r\n" + tail
  }

  lemma SizeRead(spaces: string, size: string, ext: string, tail: string)
    requires IsLead(spaces) && IsSize(size) && IsExt(ext)
    ensures HexNumber(SkipSpace(spaces + (size + ExtLine(ext, tail)))) == (Some(HexValue(size)), ExtLine(ext, tail))
  {
    var rest := ExtLine(ext, tail);
    assert (size + rest)[0] == size[0];
    SkipSpaceAt(spaces, size + rest);
    assert rest[0] == if ext == "" then '\r' else ';';
    DigitsRead(size, rest);
  }

  lemma ExtRead(ext: string, tail: string)
    requires IsExt(ext)
    ensures AfterLine(ExtLine(ext, tail)) == tail
  {
    var rest := ExtLine(ext, tail);
    assert rest == (ext + "\r") + ("\n" + tail);
    FindFirstOfAt(ext + "\r", "\n" + tail, {'\n'});
    assert rest[|ext| + 2..] == tail;
  }

  lemma HeadIs(size: string, ext: string, tail: string)
    ensures HeadLine(size, ext) + tail == size + ExtLine(ext, tail)
  {
    Assoc(size, ext + "\r\n", tail);
  }

  lemma HeadRead(spaces: string, size: string, ext: string, tail: string)
    requires IsLead(spaces) && IsSize(size) && IsExt(ext)
    ensures HexNumber(SkipSpace(spaces + (HeadLine(size, ext) + tail))) == (Some(HexValue(size)), ExtLine(ext, tail))
    ensures AfterLine(ExtLine(ext, tail)) == tail
  {
    HeadIs(size, ext, tail);
    SizeRead(spaces, size, ext, tail);
    ExtRead(ext, tail);
  }

  /** A chunk's head is read and as much of its data as there is. */
  lemma ChunkRead(spaces: string, c: Chunk, body: string, text: string)
    requires IsLead(spaces) && IsChunk(c) && text == spaces + (HeadLine(c.size, c.ext) + body)
    ensures Decode(text) == Part(|c.data|, body) + if |c.data| <= |body| then Decode(body[|c.data|..]) else ""
  {
    ChunkSize(c);
    HeadRead(spaces, c.size, c.ext, body);
    DecodeStep(text);
  }

  lemma {:induction false} DecodeEncode(spaces: string, cs: seq<Chunk>, last: Chunk)
    requires IsLead(spaces) && Encodable(cs, last)
    ensures Decode(spaces + Encode(cs, last)) == Body(cs)
    decreases cs
  {
    if cs == [] {
      ChunkSize(last);
      HeadRead(spaces, last.size, last.ext, last.data);
    } else {
      var c, more := cs[0], "\r\n" + Encode(cs[1..], last);
      assert IsChunk(c);
      EncodableTail(cs, last);
      ChunkRead(spaces, c, c.data + more, spaces + Encode(cs, last));
      assert Part(|c.data|, c.data + more) == c.data && (c.data + more)[|c.data|..] == more;
      DecodeEncode("\r\n", cs[1..], last);
    }
  }

  lemma EncodableTail(cs: seq<Chunk>, last: Chunk)
    requires Encodable(cs, last) && cs != []
    ensures Encodable(cs[1..], last)
  {
    assert forall i :: 0 <= i < |cs[1..]| ==> cs[1..][i] == cs[i + 1];
  }

  /**
    Decoding the coding of any chunks, with any extensions, any bytes in their data and any trailer, gives
    their data one after the other.
   */
  lemma ChunkedRoundTrip(cs: seq<Chunk>, last: Chunk)
    requires Encodable(cs, last)
    ensures Decode(Encode(cs, last)) == Body(cs)
  {
    assert "" + Encode(cs, last) == Encode(cs, last);
    DecodeEncode("", cs, last);
  }

  lemma {:induction false} UndecodedEncode(spaces: string, cs: seq<Chunk>, last: Chunk)
    requires IsLead(spaces) && Encodable(cs, last)
    ensures Undecoded(spaces + Encode(cs, last)) == ExtLine(last.ext, last.data)
    decreases cs
  {
    if cs == [] {
      ChunkSize(last);
      HeadRead(spaces, last.size, last.ext, last.data);
      UndecodedStep(spaces + Encode(cs, last));
    } else {
      var c, more := cs[0], "\r\n" + Encode(cs[1..], last);
      assert IsChunk(c);
      EncodableTail(cs, last);
      ChunkSize(c);
      HeadRead(spaces, c.size, c.ext, c.data + more);
      UndecodedStep(spaces + Encode(cs, last));
      assert (c.data + more)[|c.data|..] == more;
      UndecodedEncode("\r\n", cs[1..], last);
    }
  }

  /** Of a whole coding, what follows the last size is left on the stream: the end of its line and the trailer. */
  lemma TrailerLeft(cs: seq<Chunk>, last: Chunk)
    requires Encodable(cs, last)
    ensures Undecoded(Encode(cs, last)) == last.ext + "\r\n" + last.data
  {
    assert "" + Encode(cs, last) == Encode(cs, last);
    UndecodedEncode("", cs, last);
  }

  function Concat(ds: seq<string>): string {
    if ds == [] then "" else ds[0] + Concat(ds[1..])
  }

  /** Each piece of data as a chunk with its size as given and no extension. */
  function PlainChunks(ds: seq<string>, sizes: seq<string>): seq<Chunk>
    requires |sizes| == |ds|
  {
    seq(|ds|, i requires 0 <= i < |ds| => Chunk(sizes[i], "", ds[i]))
  }

  const LAST_CHUNK := Chunk("0", "", "\r\n")

  lemma {:induction false} PlainBody(ds: seq<string>, sizes: seq<string>)
    requires |sizes| == |ds|
    ensures Body(PlainChunks(ds, sizes)) == Concat(ds)
  {
    if ds == [] {
    } else {
      PlainBody(ds[1..], sizes[1..]);
      assert PlainChunks(ds, sizes)[1..] == PlainChunks(ds[1..], sizes[1..]);
    }
  }

  /**
    Every split of a text into non-empty pieces of a 64-bit size, each coded with its size in hexadecimal
    digits of either case, decodes to that text.
   */
  lemma SplitRoundTrip(ds: seq<string>, sizes: seq<string>)
    requires |sizes| == |ds|
    requires forall i :: 0 <= i < |ds| ==> 0 < |ds[i]| <= 0xFFFF_FFFF_FFFF_FFFF && Writes(sizes[i], |ds[i]|)
    ensures Decode(Encode(PlainChunks(ds, sizes), LAST_CHUNK)) == Concat(ds)
  {
    assert Writes("0", 0);
    ChunkedRoundTrip(PlainChunks(ds, sizes), LAST_CHUNK);
    PlainBody(ds, sizes);
  }

  /** There are such sizes. */
  lemma PlainSizes(ds: seq<string>) returns (sizes: seq<string>)
    ensures |sizes| == |ds| && forall i :: 0 <= i < |ds| ==> Writes(sizes[i], |ds[i]|)
  {
    sizes := seq(|ds|, i requires 0 <= i < |ds| => Hex(|ds[i]|));
    forall i | 0 <= i < |ds| ensures Writes(sizes[i], |ds[i]|) {
      WritesIff(sizes[i], |ds[i]|);
    }
  }

  // ----- a response cut short

  lemma NoLineNothing(r: string)
    requires Free(SkipSpace(r), {'\n'})
    ensures Decode(r) == ""
  {
    RestFree(SkipSpace(r), {'\n'});
  }

  /** The data that is among the first `k` characters of a coding. */
  function Arrived(cs: seq<Chunk>, k: nat): string
    decreases cs
  {
    if cs == [] then ""
    else
      var head := |cs[0].size| + |cs[0].ext| + 2;
      if k < head then ""
      else if k - head < |cs[0].data| then cs[0].data[..k - head]
      else
        var used := head + |cs[0].data| + 2;
        cs[0].data + if k < used then "" else Arrived(cs[1..], k - used)
  }

  lemma {:induction false} CutShort(spaces: string, cs: seq<Chunk>, last: Chunk, q: string, p: string)
    requires IsLead(spaces) && Encodable(cs, last)
    requires q <= Encode(cs, last) && p == spaces + q
    ensures Decode(p) == Arrived(cs, |q|)
    decreases cs
  {
    if q == "" {
      assert p == spaces;
      LeadNothing(spaces);
    } else if cs == [] {
      CutEnd(spaces, last, q, p);
    } else {
      EncodableTail(cs, last);
      var r := CutFirst(spaces, cs, last, q, p);
      if r.Some? {
        CutShort("\r\n", cs[1..], last, r.value, "\r\n" + r.value);
      }
    }
  }

  lemma CutEnd(spaces: string, last: Chunk, q: string, p: string)
    requires IsLead(spaces) && Writes(last.size, 0) && IsExt(last.ext)
    requires q <= Encode([], last) && q != "" && p == spaces + q
    ensures Decode(p) == ""
  {
    LastText(last);
    ChunkSize(last);
    CutLast(spaces, last.size, ExtLine(last.ext, last.data), q, p);
  }

  /** The first chunk of a cut coding, and what has to be known of what follows it. */
  lemma CutFirst(spaces: string, cs: seq<Chunk>, last: Chunk, q: string, p: string) returns (r: Option<string>)
    requires IsLead(spaces) && cs != [] && IsChunk(cs[0])
    requires p == spaces + q && q != "" && q <= Encode(cs, last)
    ensures r.None? ==> Decode(p) == Arrived(cs, |q|)
    ensures r.Some? ==>
              && r.value <= Encode(cs[1..], last)
              && (Decode("\r\n" + r.value) == Arrived(cs[1..], |r.value|) ==> Decode(p) == Arrived(cs, |q|))
  {
    var tail := CutChunk(spaces, cs[0], "\r\n" + Encode(cs[1..], last), q, p);
    r := None;
    if tail.Some? {
      LeadCut(tail.value, Encode(cs[1..], last));
      if |tail.value| >= 2 {
        r := Some(tail.value[2..]);
      }
    }
    if r == None || Decode(tail.value) == Arrived(cs[1..], |r.value|) {
      ArrivedStep(cs, |q|, if r == None then "" else Decode(tail.value), Decode(p));
    }
  }

  /** What has arrived, by the first chunk and what `more` has arrived after it. */
  lemma ArrivedStep(cs: seq<Chunk>, k: nat, more: string, data: string)
    requires cs != []
    requires var arrived := k - |HeadLine(cs[0].size, cs[0].ext)|;
             var after := arrived - |cs[0].data|;
             if after >= 0 then
               && more == (if after < 2 then "" else Arrived(cs[1..], after - 2))
               && data == cs[0].data + more
             else data == if arrived < 0 then "" else cs[0].data[..arrived]
    ensures data == Arrived(cs, k)
  {
  }

  lemma {:induction false} ArrivedPrefix(cs: seq<Chunk>, k: nat)
    ensures Arrived(cs, k) <= Body(cs)
    decreases cs
  {
    if cs == [] {
    } else {
      var used := |cs[0].size| + |cs[0].ext| + 2 + |cs[0].data| + 2;
      if k >= used {
        ArrivedPrefix(cs[1..], k - used);
      }
    }
  }

  /** One chunk: it is cut itself, or it is read whole and what follows is cut. */
  lemma CutChunk(spaces: string, c: Chunk, more: string, q: string, p: string) returns (tail: Option<string>)
    requires IsLead(spaces) && IsChunk(c)
    requires p == spaces + q && q != "" && q <= HeadLine(c.size, c.ext) + (c.data + more)
    ensures var arrived := |q| - |HeadLine(c.size, c.ext)|;
            && (tail.None? ==> arrived < |c.data| && Decode(p) == if arrived < 0 then "" else c.data[..arrived])
            && (tail.Some? ==>
                  && tail.value <= more && |tail.value| == arrived - |c.data|
                  && Decode(p) == c.data + Decode(tail.value))
  {
    var head := HeadLine(c.size, c.ext);
    ChunkSize(c);
    tail := None;
    if |q| < |head| {
      CutHead(spaces, c, c.data + more, q, p);
    } else {
      var body := q[|head|..];
      CutAt(head, c.data + more, q, body);
      ChunkRead(spaces, c, body, p);
      if |body| >= |c.data| {
        tail := Some(body[|c.data|..]);
        CutAt(c.data, more, body, tail.value);
        assert Part(|c.data|, body) == c.data;
      } else {
        assert body == c.data[..|body|];
      }
    }
  }

  /** A prefix of `s + t` that reaches past `s` is `s` and a prefix of `t`. */
  lemma CutAt(s: string, t: string, p: string, q: string)
    requires p <= s + t && |s| <= |p| && q == p[|s|..]
    ensures p == s + q && q <= t
  {
    assert p == (s + t)[..|p|];
    assert q == t[..|q|];
  }

  /** White space is nothing: a lead, or what has arrived of one. */
  lemma LeadNothing(p: string)
    requires p == "" || p == "\r" || p == "\r\n"
    ensures Decode(p) == ""
  {
    assert p + "" == p;
    SkipSpaceAt(p, "");
    DecodeStep(p);
  }

  /** What has arrived of a lead and the text after it: part of the lead, or all of it and part of the text. */
  lemma LeadCut(tail: string, next: string)
    requires tail <= "\r\n" + next
    ensures |tail| < 2 ==> Decode(tail) == ""
    ensures |tail| >= 2 ==> tail == "\r\n" + tail[2..] && tail[2..] <= next
  {
    if |tail| < 2 {
      assert tail == ("\r\n" + next)[..|tail|];
      assert tail == "" || tail == "\r";
      LeadNothing(tail);
    } else {
      CutAt("\r\n", next, tail, tail[2..]);
    }
  }

  lemma CutLast(spaces: string, digits: string, rest: string, q: string, p: string)
    requires IsLead(spaces) && IsSize(digits) && HexValue(digits) == 0
    requires rest != "" && rest[0] in {'\r', ';'}
    requires p == spaces + q && q != "" && q <= digits + rest
    ensures Decode(p) == ""
  {
    assert q[0] == digits[0];
    SkipSpaceAt(spaces, q);
    CutZero(digits, rest, q);
  }

  lemma LastText(last: Chunk)
    ensures Encode([], last) == last.size + ExtLine(last.ext, last.data)
    ensures IsExt(last.ext) ==> ExtLine(last.ext, last.data)[0] in {'\r', ';'}
  {
    Assoc(last.size, last.ext + "\r\n", last.data);
  }

  lemma CutZero(digits: string, rest: string, q: string)
    requires IsSize(digits) && HexValue(digits) == 0
    requires rest != "" && rest[0] in {'\r', ';'}
    requires q <= digits + rest && q != ""
    ensures HexNumber(q).0 == Some(0)
  {
    if |q| <= |digits| {
      assert q == digits[..|q|];
      ZeroPrefix(digits, |q|);
      assert q + "" == q;
      DigitsRead(q, "");
    } else {
      var r := q[|digits|..];
      CutAt(digits, rest, q, r);
      assert r[0] == rest[0];
      DigitsRead(digits, r);
    }
  }

  lemma ZeroPrefix(digits: string, k: nat)
    requires k <= |digits| && HexValue(digits) == 0
    ensures HexValue(digits[..k]) == 0
  {
    ZeroUpTo(digits, k);
    assert digits[..k][..k] == digits[..k];
    HexPrefixSame(digits, digits[..k], k);
  }

  lemma {:induction false} ZeroUpTo(digits: string, k: nat)
    requires k <= |digits| && HexValue(digits) == 0
    ensures HexPrefix(digits, k) == 0
    decreases |digits| - k
  {
    if k == |digits| {
    } else {
      ZeroUpTo(digits, k + 1);
    }
  }

  lemma CutHead(spaces: string, c: Chunk, more: string, q: string, p: string)
    requires IsLead(spaces) && IsChunk(c)
    requires p == spaces + q && q != "" && q <= HeadLine(c.size, c.ext) + more
    requires |q| < |HeadLine(c.size, c.ext)|
    ensures Decode(p) == ""
  {
    var line := c.size + (c.ext + "\r");
    assert HeadLine(c.size, c.ext) == line + "\n";
    assert q == line[..|q|];
    ChunkSize(c);
    HeadFree(c);
    assert q[0] == c.size[0];
    SkipSpaceAt(spaces, q);
    NoLineNothing(p);
  }

  lemma HeadFree(c: Chunk)
    requires IsChunk(c)
    ensures Free(c.size + (c.ext + "\r"), {'\n'})
  {
    ChunkSize(c);
    assert Free(c.size, {'\n'});
    FreeConcat(c.ext, "\r", {'\n'});
    FreeConcat(c.size, c.ext + "\r", {'\n'});
  }

  /**
    Whatever prefix of a coding arrives, exactly the data in it is decoded, cut within a chunk or not: a prefix
    of the whole data.
   */
  lemma TruncationSafe(cs: seq<Chunk>, last: Chunk, p: string)
    requires Encodable(cs, last) && p <= Encode(cs, last)
    ensures Decode(p) == Arrived(cs, |p|) <= Body(cs)
  {
    NoLead(p);
    CutShort("", cs, last, p, p);
    ArrivedPrefix(cs, |p|);
  }

  lemma NoLead(p: string)
    ensures IsLead("") && p == "" + p
  {
  }
}
