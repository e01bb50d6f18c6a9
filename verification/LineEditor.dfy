/** The line editor behind the terminal: bytes in, command strings out. */
module LineEditor {
  import opened Bytes

  const NUL: byte := 0
  const BACKSPACE: byte := 8
  const LF: byte := 10
  const CR: byte := 13

  predicate Terminates(ch: byte) { ch == CR || ch == LF || ch == NUL }

  // ----- the editor as a function of the bytes alone

  /** The line after one more character that does not end it; `limit` characters fit. */
  function TypeChar(line: seq<byte>, ch: byte, limit: nat): seq<byte> {
    if ch == BACKSPACE then (if line == [] then [] else line[..|line| - 1])
    else if |line| < limit then line + [ch] else line
  }

  /** The line that typing `chars` leaves. */
  function Typed(line: seq<byte>, chars: seq<byte>, limit: nat): seq<byte>
    decreases |chars|
  {
    if chars == [] then line else Typed(TypeChar(line, chars[0], limit), chars[1..], limit)
  }

  /** Characters before the first terminator. */
  function SegmentLength(bytes: seq<byte>): (n: nat)
    ensures n <= |bytes| && (n < |bytes| ==> Terminates(bytes[n]))
    ensures forall i :: 0 <= i < n ==> !Terminates(bytes[i])
  {
    if bytes == [] || Terminates(bytes[0]) then 0 else 1 + SegmentLength(bytes[1..])
  }

  /** The commands in a byte stream: split at the terminators, edit each piece, drop the empty lines. */
  function Commands(line: seq<byte>, bytes: seq<byte>, limit: nat): seq<seq<byte>>
    decreases |bytes|
  {
    var n := SegmentLength(bytes);
    if n == |bytes| then [] else
      var cmd := Typed(line, bytes[..n], limit);
      (if cmd == [] then [] else [cmd]) + Commands([], bytes[n + 1..], limit)
  }

  /** The unfinished line at the end of a byte stream. */
  function Remainder(line: seq<byte>, bytes: seq<byte>, limit: nat): seq<byte>
    decreases |bytes|
  {
    var n := SegmentLength(bytes);
    if n == |bytes| then Typed(line, bytes, limit) else Remainder([], bytes[n + 1..], limit)
  }

  /** NUL, LF and CR end a line, and nothing else does; 8 takes back the last character. */
  lemma ControlBytes(line: seq<byte>, ch: byte, limit: nat)
    ensures Terminates(ch) <==> ch == 0 || ch == 10 || ch == 13
    ensures ch == 8 && line != [] ==> TypeChar(line, ch, limit) + [line[|line| - 1]] == line
    ensures ch == 8 && line == [] ==> TypeChar(line, ch, limit) == line
    ensures ch != 8 ==> TypeChar(line, ch, limit) == line + (if |line| < limit then [ch] else [])
  {
  }

  /** Taking the first byte off the stream. */
  lemma CommandsHead(line: seq<byte>, bytes: seq<byte>, limit: nat)
    requires bytes != []
    ensures Terminates(bytes[0]) ==>
              Commands(line, bytes, limit) == (if line == [] then [] else [line]) + Commands([], bytes[1..], limit)
              && Remainder(line, bytes, limit) == Remainder([], bytes[1..], limit)
    ensures !Terminates(bytes[0]) ==>
              Commands(line, bytes, limit) == Commands(TypeChar(line, bytes[0], limit), bytes[1..], limit)
              && Remainder(line, bytes, limit) == Remainder(TypeChar(line, bytes[0], limit), bytes[1..], limit)
  {
    hide Commands, Remainder, TypeChar;
    if Terminates(bytes[0]) {
      LineEnds(line, bytes, limit);
    } else {
      LineGoesOn(line, bytes, limit);
    }
  }

  lemma LineEnds(line: seq<byte>, bytes: seq<byte>, limit: nat)
    requires bytes != [] && Terminates(bytes[0])
    ensures Commands(line, bytes, limit) == (if line == [] then [] else [line]) + Commands([], bytes[1..], limit)
    ensures Remainder(line, bytes, limit) == Remainder([], bytes[1..], limit)
  {
    assert SegmentLength(bytes) == 0 && bytes[..0] == [];
  }

  lemma LineGoesOn(line: seq<byte>, bytes: seq<byte>, limit: nat)
    requires bytes != [] && !Terminates(bytes[0])
    ensures Commands(line, bytes, limit) == Commands(TypeChar(line, bytes[0], limit), bytes[1..], limit)
    ensures Remainder(line, bytes, limit) == Remainder(TypeChar(line, bytes[0], limit), bytes[1..], limit)
  {
    hide TypeChar;
    var n := SegmentLength(bytes[1..]);
    assert SegmentLength(bytes) == n + 1;
    assert bytes[..n + 1][1..] == bytes[1..][..n];
    if n + 1 < |bytes| {
      assert bytes[n + 2..] == bytes[1..][n + 1..];
    }
  }

  /** How the stream is cut into pieces does not matter. */
  lemma {:induction false} CommandsConcat(line: seq<byte>, a: seq<byte>, b: seq<byte>, limit: nat)
    ensures Commands(line, a + b, limit) == Commands(line, a, limit) + Commands(Remainder(line, a, limit), b, limit)
    ensures Remainder(line, a + b, limit) == Remainder(Remainder(line, a, limit), b, limit)
    decreases |a|
  {
    hide Commands, Remainder, TypeChar;
    if a == [] {
      CommandsOfNothing(line, limit);
      assert a + b == b;
    } else {
      CommandsHead(line, a, limit);
      CommandsHead(line, a + b, limit);
      assert (a + b)[1..] == a[1..] + b;
      CommandsConcat(if Terminates(a[0]) then [] else TypeChar(line, a[0], limit), a[1..], b, limit);
    }
  }

  lemma CommandsOfNothing(line: seq<byte>, limit: nat)
    ensures Commands(line, [], limit) == [] && Remainder(line, [], limit) == line
  {
  }

  /** `left` is still to be edited; the whole run ends with `strings` delivered and `last` unfinished. */
  ghost predicate Remains(delivered: seq<seq<byte>>, line: seq<byte>, left: seq<byte>, limit: nat,
                          strings: seq<seq<byte>>, last: seq<byte>)
  {
    delivered + Commands(line, left, limit) == strings && Remainder(line, left, limit) == last
  }

  lemma RemainsFed(delivered: seq<seq<byte>>, line: seq<byte>, ch: byte, left: seq<byte>, limit: nat,
                   strings: seq<seq<byte>>, last: seq<byte>)
    requires Remains(delivered, line, [ch] + left, limit, strings, last)
    ensures Remains(delivered + (if Terminates(ch) && line != [] then [line] else []),
                    if Terminates(ch) then [] else TypeChar(line, ch, limit), left, limit, strings, last)
  {
    hide Commands, Remainder, TypeChar;
    CommandsHead(line, [ch] + left, limit);
    assert ([ch] + left)[1..] == left;
  }

  ghost predicate CleanLine(line: seq<byte>, limit: nat) {
    |line| <= limit && forall i :: 0 <= i < |line| ==> line[i] !in {0, 8, 10, 13}
  }

  /** Every command is non-empty, within the limit, and free of NUL, line ends and backspaces. */
  lemma {:induction false} CommandsAreClean(line: seq<byte>, bytes: seq<byte>, limit: nat)
    requires CleanLine(line, limit)
    ensures forall i :: 0 <= i < |Commands(line, bytes, limit)| ==>
              Commands(line, bytes, limit)[i] != [] && CleanLine(Commands(line, bytes, limit)[i], limit)
    ensures CleanLine(Remainder(line, bytes, limit), limit)
    decreases |bytes|
  {
    hide Commands, Remainder;
    CommandsOfNothing(line, limit);
    if bytes != [] {
      CommandsHead(line, bytes, limit);
      CommandsAreClean(if Terminates(bytes[0]) then [] else TypeChar(line, bytes[0], limit), bytes[1..], limit);
    }
  }

  /** Without backspaces a line is what was typed, cut off at the limit. */
  lemma {:induction false} TypedWithoutBackspace(line: seq<byte>, chars: seq<byte>, limit: nat)
    requires |line| <= limit && 8 !in chars
    ensures Typed(line, chars, limit) == (line + chars)[..if |line| + |chars| < limit then |line| + |chars| else limit]
    decreases |chars|
  {
    if chars != [] {
      TypedWithoutBackspace(TypeChar(line, chars[0], limit), chars[1..], limit);
      if |line| < limit { assert line + [chars[0]] + chars[1..] == line + chars; }
    }
  }

  /** A character that fits, followed by a backspace, changes nothing. */
  lemma BackspaceUndoes(line: seq<byte>, ch: byte, rest: seq<byte>, limit: nat)
    requires |line| < limit && ch != 8
    ensures Typed(line, [ch, 8] + rest, limit) == Typed(line, rest, limit)
  {
  }

  // ----- the editor as the driver runs it

  /** The C string in a buffer: the bytes before the first NUL. */
  function CString(data: seq<byte>): seq<byte> {
    if data == [] || data[0] == NUL then [] else [data[0]] + CString(data[1..])
  }

  lemma {:induction false} CStringUpTo(data: seq<byte>, n: nat)
    requires n < |data| && data[n] == NUL && forall i :: 0 <= i < n ==> data[i] != NUL
    ensures CString(data) == data[..n]
    decreases n
  {
    if n > 0 {
      CStringUpTo(data[1..], n - 1);
      assert data[..n] == [data[0]] + data[1..][..n - 1];
    }
  }

  /** tty_buf_t, with the strings handed to the callback so far. */
  class TtyBuf {
    var data: array<byte>
    var len: nat
    ghost var delivered: seq<seq<byte>>

    ghost predicate Valid()
      reads this, data
    {
      len < data.Length && CleanLine(data[..len], data.Length - 1)
    }

    ghost function Line(): seq<byte>
      requires Valid()
      reads this, data
    {
      data[..len]
    }

    constructor (size: nat)
      requires size > 0
      ensures Valid() && fresh(data) && data.Length == size && Line() == [] && delivered == []
    {
      data := new byte[size];
      len := 0;
      delivered := [];
    }

    /** _rx_feed: every store is inside the buffer, and the callback gets the edited line as a C string. */
    method Feed(ch0: byte)
      requires Valid()
      modifies this`len, this`delivered, data
      ensures Valid()
      ensures Line() == if Terminates(ch0) then [] else TypeChar(old(Line()), ch0, data.Length - 1)
      ensures delivered == old(delivered) + (if Terminates(ch0) && old(Line()) != [] then [old(Line())] else [])
    {
      var ch := ch0;
      if ch == CR || ch == LF {
        ch := NUL;
      }
      ghost var line := Line();
      data[len] := ch;
      assert data[..len] == line;
      if ch == BACKSPACE {
        if len > 0 {
          len := len - 1;
          assert data[..len] == line[..len];
        }
        return;
      }
      if ch == NUL {
        if len > 0 {
          CStringUpTo(data[..], len);
          delivered := delivered + [CString(data[..])];  // the callback
          len := 0;
        }
      } else if len < data.Length - 1 {
        len := len + 1;
        assert data[..len] == line + [ch];
      }
    }
  }
}
