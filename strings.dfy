/** The few operations of Go's strings and bufio packages that the backends
    use to read and write their text logs, on byte strings. */
module Strings {
  import opened Types

  /** strings.Split(s, sep) for a one-byte separator: the pieces between the
      separators, in order; never empty (Split("") is [""]). */
  function Split(s: Text, sep: Byte): (pieces: seq<Text>)
    ensures |pieces| >= 1
    ensures forall i | 0 <= i < |pieces| :: sep !in pieces[i]
    decreases |s|
  {
    if s == [] then [[]]
    else
      var tail := Split(s[1..], sep);
      if s[0] == sep then [[]] + tail
      else [[s[0]] + tail[0]] + tail[1..]
  }

  /** strings.Join(pieces, sep), and equally fmt.Sprintf of "%s" fields
      separated by sep. */
  function Join(pieces: seq<Text>, sep: Byte): Text
    requires |pieces| >= 1
    decreases |pieces|
  {
    if |pieces| == 1 then pieces[0] else pieces[0] + [sep] + Join(pieces[1..], sep)
  }

  /** Split undoes Join when no piece holds the separator. */
  lemma {:induction false} SplitJoin(pieces: seq<Text>, sep: Byte)
    requires |pieces| >= 1
    requires forall i | 0 <= i < |pieces| :: sep !in pieces[i]
    ensures Split(Join(pieces, sep), sep) == pieces
    decreases |pieces|
  {
    if |pieces| == 1 {
      SplitNoSeparator(pieces[0], sep);
    } else {
      SplitJoin(pieces[1..], sep);
      SplitAfter(pieces[0], Join(pieces[1..], sep), sep);
      assert Join(pieces, sep) == pieces[0] + [sep] + Join(pieces[1..], sep);
      assert [pieces[0]] + pieces[1..] == pieces;
    }
  }

  /** Join undoes Split: no byte of the input is lost or reordered. */
  lemma {:induction false} JoinSplit(s: Text, sep: Byte)
    ensures Join(Split(s, sep), sep) == s
    decreases |s|
  {
    if s != [] {
      JoinSplit(s[1..], sep);
      var tail := Split(s[1..], sep);
      if s[0] == sep {
        assert Split(s, sep)[1..] == tail;
        assert Join(Split(s, sep), sep) == [] + [sep] + Join(tail, sep);
        assert s == [s[0]] + s[1..];
      } else {
        var ps := Split(s, sep);
        assert ps == [[s[0]] + tail[0]] + tail[1..];
        if |tail| == 1 {
          assert Join(ps, sep) == [s[0]] + tail[0];
          assert Join(tail, sep) == tail[0];
        } else {
          assert ps[1..] == tail[1..];
          assert Join(ps, sep) == [s[0]] + tail[0] + [sep] + Join(tail[1..], sep);
          assert Join(tail, sep) == tail[0] + [sep] + Join(tail[1..], sep);
        }
        assert s == [s[0]] + s[1..];
      }
    }
  }

  lemma {:induction false} SplitNoSeparator(s: Text, sep: Byte)
    requires sep !in s
    ensures Split(s, sep) == [s]
    decreases |s|
  {
    if s != [] {
      SplitNoSeparator(s[1..], sep);
      assert [s[0]] + s[1..] == s;
    }
  }

  lemma {:induction false} SplitAfter(a: Text, b: Text, sep: Byte)
    requires sep !in a
    ensures Split(a + [sep] + b, sep) == [a] + Split(b, sep)
    decreases |a|
  {
    var s := a + [sep] + b;
    if a == [] {
      assert s[1..] == b;
    } else {
      assert s[1..] == a[1..] + [sep] + b;
      SplitAfter(a[1..], b, sep);
      assert [a[0]] + a[1..] == a;
    }
  }

  /** A byte missing from the input is missing from every piece. */
  lemma {:induction false} SplitAvoids(s: Text, sep: Byte, c: Byte)
    requires c !in s
    ensures forall i | 0 <= i < |Split(s, sep)| :: c !in Split(s, sep)[i]
    decreases |s|
  {
    if s != [] {
      assert s[0] in s;
      SplitAvoids(s[1..], sep, c);
    }
  }

  /** Joining pieces that avoid a byte other than the separator avoids it too. */
  lemma {:induction false} JoinAvoids(pieces: seq<Text>, sep: Byte, c: Byte)
    requires |pieces| >= 1 && c != sep
    requires forall i | 0 <= i < |pieces| :: c !in pieces[i]
    ensures c !in Join(pieces, sep)
    decreases |pieces|
  {
    if |pieces| > 1 {
      JoinAvoids(pieces[1..], sep, c);
    }
  }

  /** strings.TrimLeft(s, string([c])): drops every leading c. */
  function TrimLeft(s: Text, c: Byte): Text
    decreases |s|
  {
    if s != [] && s[0] == c then TrimLeft(s[1..], c) else s
  }

  /** strings.TrimRight(s, string([c])): drops every trailing c. */
  function TrimRight(s: Text, c: Byte): Text
    decreases |s|
  {
    if s != [] && s[|s| - 1] == c then TrimRight(s[..|s| - 1], c) else s
  }

  /** strings.Trim(s, string([c])): drops every leading and trailing c. */
  function Trim(s: Text, c: Byte): Text
  {
    TrimRight(TrimLeft(s, c), c)
  }

  /** Trimming a chunk that bufio returned with its delimiter leaves the data. */
  lemma TrimDelimited(s: Text, c: Byte)
    requires c !in s
    ensures Trim(s + [c], c) == s
  {
    if s == [] {
      assert TrimLeft([c], c) == TrimLeft([], c);
    } else {
      assert s[0] in s && s[|s| - 1] in s;
      assert TrimLeft(s + [c], c) == s + [c];
      assert (s + [c])[..|s|] == s;
      assert TrimRight(s + [c], c) == TrimRight(s, c);
    }
  }

  /** bufio.Reader.ReadBytes(delim) on the unread rest of a file: the data up
      to and including the first delim, or, when there is none, all that is
      left together with io.EOF (the flag). */
  function ReadBytes(s: Text, delim: Byte): (r: (Text, bool))
    ensures r.1 <==> delim !in s
    ensures r.1 ==> r.0 == s
    ensures !r.1 ==> |r.0| > 0 && r.0[|r.0| - 1] == delim && delim !in r.0[..|r.0| - 1]
    ensures r.0 <= s
    decreases |s|
  {
    if s == [] then ([], true)
    else if s[0] == delim then ([delim], false)
    else
      var next := ReadBytes(s[1..], delim);
      assert !next.1 ==> ([s[0]] + next.0)[..|next.0|] == [s[0]] + next.0[..|next.0| - 1];
      ([s[0]] + next.0, next.1)
  }

  /** A read that finds its delimiter does not look past it. */
  lemma {:induction false} ReadBytesPrefix(s: Text, t: Text, delim: Byte)
    requires delim in s
    ensures ReadBytes(s + t, delim) == ReadBytes(s, delim)
    decreases |s|
  {
    if s[0] != delim {
      assert (s + t)[1..] == s[1..] + t;
      ReadBytesPrefix(s[1..], t, delim);
    }
  }

  /** A file ends at a line boundary when it is empty or its last byte is a newline. */
  predicate AtLineBoundary(s: Text)
  {
    s == [] || s[|s| - 1] == '\n'
  }

  /** The complete lines of a text, each without its newline, in order; an
      unterminated last chunk is not a line. This is what a bufio
      ReadBytes('\n') loop hands on before it meets io.EOF (LinesStep). */
  function Lines(s: Text): (lines: seq<Text>)
  {
    LinesFrom([], s)
  }

  /** Lines of s when cur has already been read of the current line. */
  function LinesFrom(cur: Text, s: Text): (lines: seq<Text>)
    decreases |s|
  {
    if s == [] then []
    else if s[0] == '\n' then [cur] + LinesFrom([], s[1..])
    else LinesFrom(cur + [s[0]], s[1..])
  }

  /** A line is never broken inside: no line holds a newline. */
  lemma {:induction false} LinesFromNoNewline(cur: Text, s: Text)
    requires '\n' !in cur
    ensures forall i | 0 <= i < |LinesFrom(cur, s)| :: '\n' !in LinesFrom(cur, s)[i]
    decreases |s|
  {
    if s != [] {
      if s[0] == '\n' {
        LinesFromNoNewline([], s[1..]);
      } else {
        LinesFromNoNewline(cur + [s[0]], s[1..]);
      }
    }
  }

  /** Reading on from a newline-free piece of the current line. */
  lemma {:induction false} LinesFromStep(cur: Text, data: Text, rest: Text)
    requires '\n' !in data
    ensures LinesFrom(cur, data + ['\n'] + rest) == [cur + data] + LinesFrom([], rest)
    decreases |data|
  {
    var s := data + ['\n'] + rest;
    if data == [] {
      assert s[0] == '\n' && s[1..] == rest;
      assert cur + data == cur;
    } else {
      assert data[0] in data;
      assert s[0] == data[0] && s[1..] == data[1..] + ['\n'] + rest;
      LinesFromStep(cur + [data[0]], data[1..], rest);
      assert cur + [data[0]] + data[1..] == cur + data;
    }
  }

  /** One turn of the reading loop: a text whose first newline ends data
      yields data, then the lines of what follows. */
  lemma LinesStep(data: Text, rest: Text)
    requires '\n' !in data
    ensures Lines(data + ['\n'] + rest) == [data] + Lines(rest)
  {
    LinesFromStep([], data, rest);
    assert [] + data == data;
  }

  /** One turn of a ReadBytes('\n') loop over rest: a read that finds the
      newline returns the first line with it, and the loop goes on with the
      lines after it; a read that meets io.EOF leaves no complete line. */
  lemma ReadLine(rest: Text)
    ensures ReadBytes(rest, '\n').1 ==> Lines(rest) == []
    ensures !ReadBytes(rest, '\n').1 ==>
              |Lines(rest)| >= 1
              && Trim(ReadBytes(rest, '\n').0, '\n') == Lines(rest)[0]
              && Lines(rest[|ReadBytes(rest, '\n').0|..]) == Lines(rest)[1..]
  {
    var r := ReadBytes(rest, '\n');
    if r.1 {
      LinesFromPartial([], rest);
    } else {
      var chunk := r.0;
      var data, after := chunk[..|chunk| - 1], rest[|chunk|..];
      assert chunk == data + ['\n'];
      assert rest == data + ['\n'] + after;
      LinesStep(data, after);
      TrimDelimited(data, '\n');
    }
  }

  /** A read stops at the first delimiter and returns the data before it with it. */
  lemma ReadBytesDelimited(data: Text, rest: Text, delim: Byte)
    requires delim !in data
    ensures ReadBytes(data + [delim] + rest, delim) == (data + [delim], false)
  {
    var s := data + [delim] + rest;
    assert s[|data|] == delim;
    var r := ReadBytes(s, delim);
    assert forall j | 0 <= j < |data| :: s[j] == data[j] != delim;
    assert r.0 == s[..|r.0|];
    assert |r.0| <= |data| + 1 by {
      assert forall j | 0 <= j < |r.0| - 1 :: r.0[..|r.0| - 1][j] == s[j];
    }
    assert r.0 == s[..|data| + 1] == data + [delim];
  }

  /** Reading on past a line boundary: the lines of s + r are those of s then
      those of r. */
  lemma {:induction false} LinesFromConcat(cur: Text, s: Text, r: Text)
    requires s != [] && s[|s| - 1] == '\n'
    ensures LinesFrom(cur, s + r) == LinesFrom(cur, s) + LinesFrom([], r)
    decreases |s|
  {
    assert (s + r)[0] == s[0] && (s + r)[1..] == s[1..] + r;
    if |s| == 1 {
      assert s[1..] == [];
    } else if s[0] == '\n' {
      LinesFromConcat([], s[1..], r);
    } else {
      LinesFromConcat(cur + [s[0]], s[1..], r);
    }
  }

  /** Appending one newline-terminated line to a text that ends at a line
      boundary appends exactly that line to what a reader sees. */
  lemma LinesAppend(s: Text, line: Text)
    requires AtLineBoundary(s)
    requires '\n' !in line
    ensures Lines(s + line + ['\n']) == Lines(s) + [line]
  {
    LinesStep(line, []);
    assert line + ['\n'] + [] == line + ['\n'];
    if s == [] {
      assert s + line + ['\n'] == line + ['\n'];
    } else {
      LinesFromConcat([], s, line + ['\n']);
      assert s + line + ['\n'] == s + (line + ['\n']);
    }
  }

  /** An unterminated tail after a line boundary is invisible to the reader. */
  lemma LinesIgnoreTail(s: Text, tail: Text)
    requires AtLineBoundary(s)
    requires '\n' !in tail
    ensures Lines(s + tail) == Lines(s)
  {
    LinesFromPartial([], tail);
    if s == [] {
      assert s + tail == tail;
    } else {
      LinesFromConcat([], s, tail);
    }
  }

  lemma {:induction false} LinesFromPartial(cur: Text, tail: Text)
    requires '\n' !in tail
    ensures LinesFrom(cur, tail) == []
    decreases |tail|
  {
    if tail != [] {
      assert tail[0] in tail;
      LinesFromPartial(cur + [tail[0]], tail[1..]);
    }
  }
}
