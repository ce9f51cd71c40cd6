/** The counted input stream of src/_doscan.c: the `getc` macro, `__fillbuf` and `ungetc`. */
module Streams {
  import opened Numerals

  /** What `getc` returns: EOF, or a character. */
  datatype Input = EOF | Ch(c: char)

  /** The next character of an input of which `pos` characters have been read. */
  function At(inp: string, pos: nat): Input {
    if pos < |inp| then Ch(inp[pos]) else EOF
  }

  predicate IsBlank(c: Input) {
    c.Ch? && IsSpace(c.c)
  }

  /** The fields of `FILE` that the scanner uses: `_buf`, `_ptr`, `_count` and the flag
      `_IOREADING`. Every `getc` lowers `_count`, even at the end of the input. */
  class Stream {
    const buf: array<char>
    var ptr: nat
    var count: int
    const reading: bool

    ghost predicate Valid()
      reads this, buf
    {
      && reading && ptr <= buf.Length
      && (if count >= 0 then ptr + count == buf.Length else ptr == buf.Length)
      && forall i :: 0 <= i < buf.Length ==> buf[i] as int < 256
    }

    /** What has been read, and what is still to be read. */
    ghost predicate Holds(inp: string, pos: nat)
      reads this, buf
    {
      Valid() && buf[..] == inp && ptr == pos
    }

    /** src/scanf.c:35-40. */
    constructor (line: array<char>)
      requires forall i :: 0 <= i < line.Length ==> line[i] as int < 256
      ensures buf == line && Holds(line[..], 0)
    {
      buf, ptr, count, reading := line, 0, line.Length, true;
    }

    /** `getc`, src/_doscan.c:101 and 201-204. */
    method Getc(ghost inp: string, ghost pos: nat) returns (c: Input)
      requires Holds(inp, pos)
      modifies this
      ensures c == At(inp, pos)
      ensures Holds(inp, if c == EOF then pos else pos + 1)
      ensures c.Ch? ==> count >= 0
    {
      count := count - 1;
      if count >= 0 {
        c := Ch(buf[ptr]);
        ptr := ptr + 1;
      } else {
        c := EOF;
      }
    }

    /** `ungetc`, src/_doscan.c:207-223: nothing can be pushed back before the first read,
        except into an empty stream. A character that is not the one last read is written
        into the buffer. */
    method Ungetc(ch: Input) returns (r: Input)
      requires ptr <= buf.Length && (ptr == 0 && count == 0 ==> buf.Length > 0)
      modifies this, buf
      ensures r == if ch == EOF || !reading || (old(ptr) == 0 && old(count) != 0) then EOF else ch
      ensures r == EOF ==> ptr == old(ptr) && count == old(count) && buf[..] == old(buf[..])
      ensures r.Ch? ==>
                && ptr == (if old(ptr) == 0 then 0 else old(ptr) - 1) < buf.Length
                && count == old(count) + 1
                && buf[..] == old(buf[..])[ptr := ch.c]
    {
      if ch == EOF || !reading {
        return EOF;
      }
      if ptr == 0 {
        if count != 0 {
          return EOF;
        }
        ptr := ptr + 1;
      }
      count := count + 1;
      ptr := ptr - 1;
      if buf[ptr] != ch.c {
        buf[ptr] := ch.c;
      }
      return ch;
    }

    /** Pushing back the character that was just read undoes the read. */
    method Unread(ch: Input, ghost inp: string, ghost pos: nat)
      requires ch.Ch? && pos > 0 && Holds(inp, pos) && count >= 0 && ch == At(inp, pos - 1)
      modifies this, buf
      ensures Holds(inp, pos - 1) && count > 0
    {
      assert buf[pos - 1] == buf[..][pos - 1] == ch.c;
      ghost var before := buf[..];
      var r := Ungetc(ch);
      assert before[pos - 1 := ch.c] == before;
    }
  }
}
