/**
  A readable character stream in the manner of `std::istringstream`: a buffer, a read position and the
  two state flags that decide how the readers of this repository end.

  As the C++ standard has it, an input operation on a stream that is not good does nothing but set failbit.
 */
module CharStreams {
  import opened HexNumbers
  import opened Text

  class CharStream {
    var data: string
    var pos: nat
    var eofbit: bool
    var failbit: bool

    ghost predicate Valid()
      reads this
    {
      pos <= |data|
    }

    ghost function Rest(): string
      requires Valid()
      reads this
    {
      data[pos..]
    }

    /** `good()` */
    predicate Good()
      reads this
    {
      !eofbit && !failbit
    }

    /** What a reader may still take: nothing from a stream that is not good. */
    ghost function Readable(): string
      requires Valid()
      reads this
    {
      if Good() then Rest() else ""
    }

    /** A fresh stream on `s`. */
    constructor (s: string)
      ensures Valid() && Good()
      ensures Rest() == s
    {
      data, pos, eofbit, failbit := s, 0, false, false;
    }

    /** A stream cleared and given the text `s`. */
    method Reset(s: string)
      modifies this
      ensures Valid() && Good()
      ensures Rest() == s
    {
      data, pos, eofbit, failbit := s, 0, false, false;
    }

    /** `clear()` */
    method Clear()
      requires Valid()
      modifies `eofbit, `failbit
      ensures Valid() && Good()
      ensures Rest() == old(Rest())
    {
      eofbit, failbit := false, false;
    }

    /** Sets failbit. */
    method SetFail()
      requires Valid()
      modifies `failbit
      ensures Valid() && failbit
      ensures Rest() == old(Rest())
    {
      failbit := true;
    }

    /** `peek()`: the end of the text sets eofbit alone. */
    method Peek() returns (c: Option<char>)
      requires Valid()
      modifies `eofbit, `failbit
      ensures Valid() && Rest() == old(Rest())
      ensures old(Good()) && Rest() != "" ==> c == Some(Rest()[0]) && Good()
      ensures old(Good()) && Rest() == "" ==> c == None && eofbit && !failbit
      ensures !old(Good()) ==> c == None && failbit && eofbit == old(eofbit)
    {
      if !Good() {
        failbit := true;
        return None;
      }
      if pos == |data| {
        eofbit := true;
        return None;
      }
      return Some(data[pos]);
    }

    /** `get(c)`: the end of the text sets both flags. */
    method Get() returns (c: Option<char>)
      requires Valid()
      modifies `pos, `eofbit, `failbit
      ensures Valid()
      ensures old(Good()) && old(Rest()) != "" ==>
                c == Some(old(Rest())[0]) && Rest() == old(Rest())[1..] && Good()
      ensures old(Good()) && old(Rest()) == "" ==> c == None && Rest() == "" && eofbit && failbit
      ensures !old(Good()) ==> c == None && Rest() == old(Rest()) && failbit && eofbit == old(eofbit)
    {
      if !Good() {
        failbit := true;
        return None;
      }
      if pos == |data| {
        eofbit, failbit := true, true;
        return None;
      }
      c := Some(data[pos]);
      pos := pos + 1;
    }

    /** `ignore()`: drops one character; the end of the text sets eofbit alone. */
    method Ignore()
      requires Valid()
      modifies `pos, `eofbit, `failbit
      ensures Valid()
      ensures old(Good()) && old(Rest()) != "" ==> Rest() == old(Rest())[1..] && Good()
      ensures old(Good()) && old(Rest()) == "" ==> Rest() == "" && eofbit && !failbit
      ensures !old(Good()) ==> Rest() == old(Rest()) && failbit && eofbit == old(eofbit)
    {
      if !Good() {
        failbit := true;
      } else if pos == |data| {
        eofbit := true;
      } else {
        pos := pos + 1;
      }
    }

    /**
      `std::getline(is, s, delim)`: on a good stream `s` becomes the text before the delimiter, which is
      dropped; running into the end sets eofbit, and failbit too when there was nothing at all to read.
     */
    method GetLine(s: string, delim: char) returns (line: string)
      requires Valid()
      modifies `pos, `eofbit, `failbit
      ensures Valid()
      ensures !old(Good()) ==> line == s && Rest() == old(Rest()) && failbit && eofbit == old(eofbit)
      ensures old(Good()) ==>
                var r := old(Rest());
                var n := FindFirstOf(r, {delim});
                && line == r[..n]
                && Rest() == (if n < |r| then r[n + 1..] else "")
                && eofbit == (n == |r|)
                && failbit == (r == "")
    {
      if !Good() {
        failbit := true;
        return s;
      }
      var atEnd := pos == |data|;
      line := Scan({delim});
      if pos == |data| {
        eofbit, failbit := true, atEnd;
      } else {
        pos := pos + 1;
      }
    }

    /** Reading a word: skips white space, then reads up to the next white space; `s` is kept when nothing is left. */
    method ReadWord(s: string) returns (word: string)
      requires Valid()
      modifies `pos, `eofbit, `failbit
      ensures Valid()
      ensures !old(Good()) ==> word == s && Rest() == old(Rest()) && failbit && eofbit == old(eofbit)
      ensures old(Good()) ==>
                var r := old(Rest());
                var t := SkipSpace(r);
                var n := FindFirstOf(t, WHITESPACE);
                && Rest() == t[n..]
                && (t == "" ==> word == s && eofbit && failbit)
                && (t != "" ==> word == t[..n] && !failbit && eofbit == (n == |t|))
    {
      if !Good() {
        failbit := true;
        return s;
      }
      SkipSpaces();
      if pos == |data| {
        eofbit, failbit := true, true;
        return s;
      }
      word := Scan(WHITESPACE);
      eofbit := pos == |data|;
    }

    /** Reading a hexadecimal number: skips white space; `len` is zero when there is none. */
    method ReadHex() returns (len: nat)
      requires Valid()
      modifies `pos, `eofbit, `failbit
      ensures Valid()
      ensures !old(Good()) ==> Rest() == old(Rest()) && failbit && eofbit == old(eofbit)
      ensures old(Good()) ==>
                var r := old(Rest());
                var (v, rest) := HexNumber(SkipSpace(r));
                && Rest() == rest && eofbit == (rest == "")
                && failbit == v.None? && (v.Some? ==> len == v.value)
    {
      if !Good() {
        failbit := true;
        return 0;
      }
      SkipSpaces();
      var neg := ReadPrefix();
      var digits := ScanWhile(HEX_DIGITS);
      var v := SizeValue(neg, digits);
      failbit, eofbit := v.None?, pos == |data|;
      len := if v.Some? then v.value else 0;
    }

    method ReadPrefix() returns (neg: bool)
      requires Valid()
      modifies `pos
      ensures Valid()
      ensures neg == ("-" <= old(Rest())) && Rest() == AfterPrefix(AfterSign(old(Rest())))
    {
      neg := false;
      if pos < |data| && data[pos] in {'+', '-'} {
        neg := data[pos] == '-';
        pos := pos + 1;
      }
      assert Rest() == AfterSign(old(Rest()));
      if pos + 2 <= |data| && data[pos] == '0' && data[pos + 1] in {'x', 'X'} {
        pos := pos + 2;
      }
    }

    /** `std::ws`: skips white space; the end of the text sets eofbit alone. */
    method SkipWs()
      requires Valid()
      modifies `pos, `eofbit, `failbit
      ensures Valid()
      ensures !old(Good()) ==> Rest() == old(Rest()) && failbit && eofbit == old(eofbit)
      ensures old(Good()) ==>
                && Rest() == SkipSpace(old(Rest()))
                && !failbit
                && eofbit == (Rest() == "")
    {
      if !Good() {
        failbit := true;
        return;
      }
      SkipSpaces();
      if pos == |data| {
        eofbit := true;
      }
    }

    method Scan(cs: set<char>) returns (word: string)
      requires Valid()
      modifies `pos
      ensures Valid()
      ensures var r := old(Rest());
              var n := FindFirstOf(r, cs);
              word == r[..n] && Rest() == r[n..]
    {
      ghost var r := Rest();
      var start := pos;
      while pos < |data| && data[pos] !in cs
        invariant start <= pos <= |data|
        invariant forall i :: start <= i < pos ==> data[i] !in cs
      {
        pos := pos + 1;
      }
      word := data[start..pos];
      ghost var n := pos - start;
      assert r[n..] == data[pos..];
      assert r == word + r[n..];
      FindFirstOfAt(word, r[n..], cs);
    }

    method ScanWhile(cs: set<char>) returns (word: string)
      requires Valid()
      modifies `pos
      ensures Valid()
      ensures var r := old(Rest());
              var n := FindFirstNotOf(r, cs);
              word == r[..n] && Rest() == r[n..]
    {
      ghost var r := Rest();
      var start := pos;
      while pos < |data| && data[pos] in cs
        invariant start <= pos <= |data|
        invariant forall i :: start <= i < pos ==> data[i] in cs
      {
        pos := pos + 1;
      }
      word := data[start..pos];
      ghost var n := pos - start;
      assert r[n..] == data[pos..];
      assert r == word + r[n..];
      FindFirstNotOfAt(word, r[n..], cs);
    }

    method SkipSpaces()
      requires Valid()
      modifies `pos
      ensures Valid()
      ensures Rest() == SkipSpace(old(Rest()))
    {
      var spaces := ScanWhile(WHITESPACE);
    }
  }
}
