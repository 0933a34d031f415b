/** readline.c: lines through a buffer that is refilled by read(). */
module LineReader {
  import opened CText
  import opened Stream

  const MAXLINE := 4096

  // ----- lines of a stream, without any buffer

  /** The next line: up to and including a newline, at most `most` characters. */
  function Line(s: string, most: nat): (l: string)
    ensures |l| <= most && l <= s
    decreases most
  {
    if most == 0 || s == "" then ""
    else if s[0] == '\n' then "\n"
    else [s[0]] + Line(s[1..], most - 1)
  }

  predicate Ended(l: string) {
    l != "" && l[|l| - 1] == '\n'
  }

  /** What a line is: a newline only at its end, and no way to make it longer. */
  predicate IsLine(l: string, s: string, most: nat) {
    && l <= s && |l| <= most
    && (forall i :: 0 <= i < |l| - 1 ==> l[i] != '\n')
    && (Ended(l) || l == s || |l| == most)
  }

  lemma {:induction false} LineIsLine(s: string, most: nat)
    ensures IsLine(Line(s, most), s, most)
    decreases most
  {
    if most > 0 && s != "" && s[0] != '\n' {
      LineIsLine(s[1..], most - 1);
      assert s == [s[0]] + s[1..];
    }
  }

  /** No other text is the next line. */
  lemma {:induction false} LineIsUnique(l: string, s: string, most: nat)
    requires IsLine(l, s, most)
    ensures l == Line(s, most)
    decreases most
  {
    if most > 0 && s != "" {
      assert l != "";
      assert l[0] == s[0];
      if s[0] != '\n' {
        LineIsUnique(l[1..], s[1..], most - 1);
        assert l == [l[0]] + l[1..];
      } else {
        assert |l| == 1;
      }
    }
  }

  /** All lines of a stream. */
  function Lines(s: string, most: nat): seq<string>
    requires most > 0
    decreases |s|
  {
    if s == "" then []
    else
      var l := Line(s, most);
      assert l != "" by { LineIsLine(s, most); }
      [l] + Lines(s[|l|..], most)
  }

  function Concat(ls: seq<string>): string {
    if ls == [] then "" else ls[0] + Concat(ls[1..])
  }

  lemma LinesUnfold(s: string, most: nat)
    requires most > 0 && s != ""
    ensures var l := Line(s, most);
      l != "" && Lines(s, most) == [l] + Lines(s[|l|..], most)
  {
    LineIsLine(s, most);
  }

  lemma ConcatCons(l: string, ls: seq<string>)
    ensures Concat([l] + ls) == l + Concat(ls)
  {
    assert ([l] + ls)[1..] == ls;
  }

  /** The lines are the stream, cut up. */
  lemma {:induction false} LinesAreTheStream(s: string, most: nat)
    requires most > 0
    ensures Concat(Lines(s, most)) == s
    decreases |s|
  {
    if s != "" {
      var l := Line(s, most);
      LineIsLine(s, most);
      LinesUnfold(s, most);
      hide Line, Lines, Concat;
      LinesAreTheStream(s[|l|..], most);
      ConcatCons(l, Lines(s[|l|..], most));
      assert s == l + s[|l|..];
    } else {
      assert Lines(s, most) == [];
    }
  }

  /** The characters of a line that a buffer of `maxlen` has room for, next to the
      terminator, which is written whatever `maxlen` is. */
  function Room(maxlen: nat): nat {
    if maxlen == 0 then 0 else maxlen - 1
  }

  lemma RoomIs(maxlen: nat)
    ensures Room(maxlen) == if maxlen == 0 then 0 else maxlen - 1
  {
  }

  /** The characters stored so far hold no newline, and the rest of `s` is still
      to come. */
  ghost predicate Storing(s: string, stored: string, rest: string) {
    s == stored + rest && '\n' !in stored
  }

  lemma NothingStored(s: string)
    ensures Storing(s, "", s)
  {
  }

  lemma StoreOne(s: string, stored: string, c: char, rest: string)
    requires Storing(s, stored, [c] + rest) && c != '\n'
    ensures Storing(s, stored + [c], rest)
  {
  }

  lemma StoredSoFar(s: string, stored: string, rest: string)
    requires Storing(s, stored, rest)
    ensures s == stored + rest
  {
  }

  lemma LineFilled(s: string, stored: string, rest: string, most: nat)
    requires Storing(s, stored, rest) && |stored| <= most && (rest == "" || |stored| == most)
    ensures stored == Line(s, most) && !Ended(stored) && s == stored + rest
  {
    LineIsUnique(stored, s, most);
  }

  lemma LineEnded(s: string, stored: string, c: char, rest: string, most: nat)
    requires Storing(s, stored, [c] + rest) && c == '\n' && |stored| < most
    ensures stored + [c] == Line(s, most) && Ended(stored + [c]) && s == (stored + [c]) + rest
  {
    LineIsUnique(stored + [c], s, most);
  }

  // ----- the buffered reader

  /** The file-level statics, for one descriptor. */
  class Reader {
    const fd: Source
    var readCnt: int
    var readPtr: nat
    const readBuf: array<char>

    constructor (fd: Source)
      ensures Valid() && this.fd == fd && Stream() == fd.unread && fresh(readBuf)
    {
      this.fd := fd;
      readCnt, readPtr := 0, 0;
      readBuf := new char[MAXLINE];
    }

    ghost predicate Valid()
      reads this
    {
      readBuf.Length == MAXLINE && (readCnt > 0 ==> readPtr + readCnt <= MAXLINE)
    }

    /** The characters read from the descriptor and not yet handed out. */
    ghost function Buffered(): string
      requires Valid()
      reads this, readBuf
    {
      if readCnt > 0 then readBuf[readPtr..readPtr + readCnt] else ""
    }

    /** Everything still to come: buffered, then unread. */
    ghost function Stream(): string
      requires Valid()
      reads this, readBuf, fd
    {
      Buffered() + fd.unread
    }

    /** The read() of my_read, repeated while it is interrupted. */
    method Refill() returns (r: Transfer)
      requires Valid() && readCnt <= 0
      modifies readBuf, fd
      ensures !r.Eintr?
      ensures r.Failed? ==> fd.unread == old(fd.unread)
      ensures r.Count? ==> r.n <= MAXLINE && old(fd.unread) == readBuf[..r.n] + fd.unread
      ensures r.Count? ==> (r.n == 0 <==> old(fd.unread) == "")
      ensures Sound(old(fd.plan)) ==> r.Count? && Sound(fd.plan)
    {
      r := fd.Read(readBuf, 0, MAXLINE);
      while r.Eintr?
        invariant !r.Count? ==> fd.unread == old(fd.unread)
        invariant r.Count? ==> r.n <= MAXLINE && old(fd.unread) == readBuf[..r.n] + fd.unread
        invariant r.Count? ==> (r.n == 0 <==> old(fd.unread) == "")
        invariant Sound(old(fd.plan)) ==> Sound(fd.plan) && !r.Failed?
        decreases |fd.plan|, r.Eintr?
      {
        r := fd.Read(readBuf, 0, MAXLINE);
      }
    }

    /** my_read: one character, 0 at the end of the data, -1 on failure. */
    method MyRead() returns (rc: int, c: char)
      requires Valid()
      modifies this, readBuf, fd
      ensures Valid() && -1 <= rc <= 1
      ensures rc == 1 ==> old(Stream()) == [c] + Stream()
      ensures rc != 1 ==> Stream() == old(Stream())
      ensures rc == 0 ==> Stream() == ""
      ensures Sound(old(fd.plan)) ==> rc != -1 && Sound(fd.plan)
    {
      c := ' ';
      if readCnt <= 0 {
        var r := Refill();
        if r.Failed? {
          readCnt := -1;
          return -1, c;
        }
        readCnt := r.n;
        if readCnt == 0 {
          return 0, c;
        }
        readPtr := 0;
      }
      ghost var rest := fd.unread;
      c := TakeOne();
      assert [c] + Buffered() + rest == [c] + (Buffered() + rest);
      return 1, c;
    }

    /** The next buffered character. */
    method TakeOne() returns (c: char)
      requires Valid() && readCnt > 0
      modifies this
      ensures Valid() && old(Buffered()) == [c] + Buffered()
    {
      ghost var b := Buffered();
      readCnt := readCnt - 1;
      c := readBuf[readPtr];
      readPtr := readPtr + 1;
      assert b == [c] + b[1..];
    }

    /** A my_read of readline, and the store of its character. */
    method StoreNext(dst: array<char>, ptr: nat, ghost stored: string) returns (rc: int, c: char)
      requires Valid() && ptr < dst.Length && dst[..ptr] == stored && dst != readBuf
      modifies this, readBuf, fd, dst
      ensures Valid() && -1 <= rc <= 1
      ensures rc == 1 ==> old(Stream()) == [c] + Stream() && dst[..ptr + 1] == stored + [c]
      ensures rc != 1 ==> Stream() == old(Stream()) && dst[..ptr] == stored
      ensures rc == 0 ==> Stream() == ""
      ensures Sound(old(fd.plan)) ==> rc != -1 && Sound(fd.plan)
    {
      hide *;
      rc, c := MyRead();
      assert dst[..ptr] == stored;
      if rc == 1 {
        dst[ptr] := c;
        assert dst[..ptr + 1] == dst[..ptr] + [c];
      }
    }

    /** The terminator behind what is stored. */
    static method Terminate(dst: array<char>, ptr: nat)
      requires ptr < dst.Length
      modifies dst
      ensures dst[ptr] == '\0' && dst[..ptr] == old(dst[..ptr])
    {
      dst[ptr] := '\0';
    }

    /** readline: the next line and a terminator into `dst`. The result counts
        the characters of the line, and one more when the line was cut short by
        `maxlen`. On failure the characters stored so far are out of the stream. */
    method Readline(dst: array<char>, maxlen: nat) returns (rc: int, ghost stored: string)
      requires Valid() && maxlen <= dst.Length && 1 <= dst.Length && dst != readBuf
      modifies this, readBuf, fd, dst
      ensures Valid() && rc >= -1
      ensures old(Stream()) == stored + Stream()
      ensures |stored| <= Room(maxlen) && dst[..|stored|] == stored
      ensures rc != -1 ==> dst[|stored|] == '\0' && stored == Line(old(Stream()), Room(maxlen))
      ensures rc != -1 ==> rc == if |stored| == Room(maxlen) && !Ended(stored) then |stored| + 1 else |stored|
      ensures Sound(old(fd.plan)) ==> rc != -1 && Sound(fd.plan)
    {
      hide *;
      ghost var room := Room(maxlen);
      RoomIs(maxlen);
      stored := "";
      ghost var s := Stream();
      NothingStored(s);
      var n: nat, ptr: nat := 1, 0;
      while n < maxlen
        invariant 1 <= n && ptr == |stored| == n - 1 <= room
        invariant Valid() && Storing(s, stored, Stream())
        invariant dst[..ptr] == stored
        invariant Sound(old(fd.plan)) ==> Sound(fd.plan)
      {
        var got, c := StoreNext(dst, ptr, stored);
        if got == 1 {
          ptr := ptr + 1;
          if c == '\n' {
            LineEnded(s, stored, c, Stream(), room);
            stored := stored + [c];
            break;
          }
          StoreOne(s, stored, c, Stream());
          stored := stored + [c];
        } else if got == 0 {
          Terminate(dst, ptr);
          LineFilled(s, stored, Stream(), room);
          return n - 1, stored;
        } else {
          StoredSoFar(s, stored, Stream());
          return -1, stored;
        }
        n := n + 1;
      }
      Terminate(dst, ptr);
      if n >= maxlen {
        LineFilled(s, stored, Stream(), room);
      }
      return n, stored;
    }

    /** readlinebuf: what is buffered. */
    method Readlinebuf() returns (n: int, buf: string)
      requires Valid()
      ensures n == readCnt && buf == Buffered() && (n > 0 ==> n == |buf|)
    {
      n := readCnt;
      buf := if readCnt > 0 then readBuf[readPtr..readPtr + readCnt] else "";
    }
  }

  // ----- a client that reads one line for each line it sends

  datatype CliEnd = Done | ServerEnded | SysError

  function CStrings(ls: seq<string>): seq<string> {
    seq(|ls|, i requires 0 <= i < |ls| => CString(ls[i]))
  }

  lemma CStringsAt(ls: seq<string>, i: nat)
    requires i < |ls|
    ensures |CStrings(ls)| == |ls| && CStrings(ls)[i] == CString(ls[i])
    ensures CStrings(ls)[..i] == CStrings(ls[..i]) && CStrings(ls)[..i + 1] == CStrings(ls[..i + 1])
  {
  }

  lemma OneMorePrinted(ls: seq<string>, l: string)
    ensures CStrings(ls + [l]) == CStrings(ls) + [CString(l)]
  {
  }

  /** The text in `dst` up to its terminator, as fputs prints it. */
  method TextIn(dst: array<char>, ghost n: nat) returns (s: string)
    requires n < dst.Length && dst[n] == '\0'
    ensures s == CString(dst[..n])
  {
    var i := 0;
    while dst[i] != '\0'
      invariant 0 <= i <= n && '\0' !in dst[..i]
      decreases n - i
    {
      i := i + 1;
    }
    CStringIs(dst[..n], i);
    assert dst[..n][..i] == dst[..i];
    return dst[..i];
  }

  lemma ReadOneMore(whole: string, rest: string, read: seq<string>, most: nat, l: string, rest': string)
    requires most > 0 && Lines(whole, most) == read + Lines(rest, most)
    requires rest == l + rest' && l == Line(rest, most) && l != ""
    ensures Lines(whole, most) == (read + [l]) + Lines(rest', most)
  {
    hide Line;
    assert rest[|l|..] == rest';
    assert Lines(rest, most) == [l] + Lines(rest', most);
  }

  lemma NoMoreLines(rest: string, most: nat)
    requires most > 0
    ensures Line(rest, most) == "" <==> rest == ""
    ensures rest == "" ==> Lines(rest, most) == []
  {
  }

  /** One turn of str_cli: a line out, as far as strlen counts it, and a line back. */
  method Exchange(line: string, sock: Sink, r: Reader, recvline: array<char>)
    returns (text: string, end: CliEnd, ghost read: string)
    requires r.Valid() && sock as object != r && sock as object != r.fd
    requires recvline.Length == MAXLINE && recvline != r.readBuf
    modifies sock, r, r.readBuf, r.fd, recvline
    ensures r.Valid()
    ensures end == Done ==> read == Line(old(r.Stream()), MAXLINE - 1) && read != "" && text == CString(read)
    ensures end == Done ==> old(r.Stream()) == read + r.Stream()
    ensures end == Done ==> sock.written == old(sock.written) + CString(line)
    ensures end == ServerEnded ==> old(r.Stream()) == "" && r.Stream() == ""
    ensures Sound(old(sock.plan)) ==> Sound(sock.plan)
    ensures Sound(old(r.fd.plan)) ==> Sound(r.fd.plan)
    ensures Sound(old(sock.plan)) && Sound(old(r.fd.plan)) ==> end != SysError
  {
    ghost var rest, most := r.Stream(), MAXLINE - 1;
    hide *;
    assert most == MAXLINE - 1;
    var sent := Writen(sock, CString(line));
    if sent == -1 {
      return "", SysError, "";
    }
    var n;
    n, read := r.Readline(recvline, MAXLINE);
    if n == -1 {
      return "", SysError, "";
    }
    RoomIs(MAXLINE);
    NoMoreLines(rest, most);
    if n == 0 {
      return "", ServerEnded, "";
    }
    text := TextIn(recvline, |read|);
    end := Done;
  }

  /** str_cli: what it reads is the lines of the server's stream, one for each
      line sent, however the bytes arrive; it prints each up to its first NUL, and
      it stops early exactly when the stream has no further line. */
  method StrCli(input: seq<string>, sock: Sink, r: Reader)
    returns (printed: seq<string>, end: CliEnd, ghost read: seq<string>)
    requires r.Valid() && sock as object != r && sock as object != r.fd
    modifies sock, r, r.readBuf, r.fd
    ensures r.Valid() && printed == CStrings(read)
    ensures end != SysError ==> Lines(old(r.Stream()), 4095) == read + Lines(r.Stream(), 4095)
    ensures end == Done ==> |read| == |input| && sock.written == old(sock.written) + Concat(CStrings(input))
    ensures end == ServerEnded ==> |read| < |input| && r.Stream() == ""
    ensures Sound(old(sock.plan)) && Sound(old(r.fd.plan)) ==> end != SysError
  {
    var recvline := new char[MAXLINE];
    ghost var whole, before := r.Stream(), sock.written;
    assert MAXLINE - 1 == 4095;
    hide *;
    printed, read := [], [];
    TurnsStart(input, whole, before);
    for i := 0 to |input|
      invariant r.Valid() && TurnsDone(input, i, whole, r.Stream(), before, sock.written, printed, read)
      invariant Sound(old(sock.plan)) ==> Sound(sock.plan)
      invariant Sound(old(r.fd.plan)) ==> Sound(r.fd.plan)
    {
      ghost var rest, written := r.Stream(), sock.written;
      TurnsKnown(input, i, whole, rest, before, written, printed, read);
      var text;
      ghost var l;
      text, end, l := Exchange(input[i], sock, r, recvline);
      if end != Done {
        return;
      }
      TurnsStep(input, i, whole, rest, before, written, printed, read, l, r.Stream());
      printed, read := printed + [text], read + [l];
    }
    TurnsKnown(input, |input|, whole, r.Stream(), before, sock.written, printed, read);
    assert input[..|input|] == input;
    end := Done;
  }

  /** What `i` turns of str_cli have done. */
  ghost predicate TurnsDone(input: seq<string>, i: nat, whole: string, rest: string, before: string, written: string,
                            printed: seq<string>, read: seq<string>) {
    && i <= |input| && |read| == i && printed == CStrings(read)
    && Lines(whole, MAXLINE - 1) == read + Lines(rest, MAXLINE - 1)
    && written == before + Concat(CStrings(input[..i]))
  }

  lemma TurnsStart(input: seq<string>, whole: string, before: string)
    ensures TurnsDone(input, 0, whole, whole, before, before, [], [])
  {
    assert [] + Lines(whole, MAXLINE - 1) == Lines(whole, MAXLINE - 1) && before + "" == before;
  }

  lemma TurnsKnown(input: seq<string>, i: nat, whole: string, rest: string, before: string, written: string,
                   printed: seq<string>, read: seq<string>)
    requires TurnsDone(input, i, whole, rest, before, written, printed, read)
    ensures |read| == i && printed == CStrings(read)
    ensures Lines(whole, MAXLINE - 1) == read + Lines(rest, MAXLINE - 1)
    ensures written == before + Concat(CStrings(input[..i]))
    ensures rest == "" ==> Lines(rest, MAXLINE - 1) == []
  {
  }

  lemma TurnsStep(input: seq<string>, i: nat, whole: string, rest: string, before: string, written: string,
                  printed: seq<string>, read: seq<string>, l: string, rest': string)
    requires i < |input| && TurnsDone(input, i, whole, rest, before, written, printed, read)
    requires l == Line(rest, MAXLINE - 1) && l != "" && rest == l + rest'
    ensures TurnsDone(input, i + 1, whole, rest', before, written + CString(input[i]), printed + [CString(l)],
      read + [l])
  {
    hide CString, CStrings, Concat, Lines, Line;
    CStringsAt(input, i);
    ConcatOneMore(CStrings(input), i);
    ReadOneMore(whole, rest, read, MAXLINE - 1, l, rest');
    OneMorePrinted(read, l);
    hide Concat, CStrings, CString, Lines, Line;
    var sent, line := Concat(CStrings(input[..i])), CString(input[i]);
    assert before + sent + line == before + (sent + line);
  }

  lemma {:induction false} ConcatOneMore(ls: seq<string>, i: nat)
    requires i < |ls|
    ensures Concat(ls[..i + 1]) == Concat(ls[..i]) + ls[i]
    decreases i
  {
    if i == 0 {
      assert ls[..1] == [ls[0]] && ls[..1][1..] == [];
    } else {
      ConcatOneMore(ls[1..], i - 1);
      assert ls[..i + 1][1..] == ls[1..][..i] && ls[..i][1..] == ls[1..][..i - 1];
    }
  }
}
