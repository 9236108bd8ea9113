/** The line reader of the AT channel: one shared buffer, a cursor into it, and reads of any size. */
module AtReader {
  import Memory
  import opened Wire
  import opened AtLines

  /** The device: the reads it will return, one after another, then end of input. */
  class Tty {
    var chunks: seq<string>

    constructor (chunks: seq<string>)
      ensures this.chunks == chunks
    {
      this.chunks := chunks;
    }

    /** read: the bytes of the next read are stored from at on; 0 at end of input. */
    method Read(buf: array<char>, at: nat) returns (count: nat)
      requires at <= buf.Length && (chunks != [] ==> at + |chunks[0]| <= buf.Length)
      modifies this, buf
      ensures old(chunks) == [] ==> count == 0 && chunks == [] && buf[..] == old(buf[..])
      ensures old(chunks) != [] ==>
                && count == |old(chunks)[0]| && chunks == old(chunks)[1..]
                && buf[..at] == old(buf[..at]) && buf[at..at + count] == old(chunks)[0]
    {
      count := 0;
      if chunks != [] {
        var c := chunks[0];
        count := |c|;
        forall j | 0 <= j < |c| {
          buf[at + j] := c[j];
        }
        chunks := chunks[1..];
      }
    }
  }

  /** A text without terminators that a terminator ends. */
  ghost predicate Terminated(buf: array<char>, cur: nat, end: nat)
    reads buf
  {
    cur <= end < buf.Length && buf[end] == '\0' && '\0' !in buf[cur..end]
  }

  lemma {:induction false} FitsNoPrompt(t: string, chunks: seq<string>)
    requires Strip(t) == t && Fits(|Residue(t)|, Residue(t), chunks)
    ensures t != "> "
  {
    EolAtIs("> ", 2);
  }

  lemma {:induction false} FitsRead(at: nat, t: string, chunks: seq<string>)
    requires Fits(at, t, chunks) && chunks != []
    ensures chunks[0] != [] && '\0' !in chunks[0] && at + |chunks[0]| < CAPACITY
  {
  }

  lemma {:induction false} EndOfInput(at: nat, t: string)
    requires Strip(t) == t && !Complete(t) && Fits(at, t, [])
    ensures NextLine(t, []) == (None, t, []) && Residue(t) == t && Fits(|t|, t, [])
  {
  }

  lemma {:induction false} NextIsComplete(t: string, chunks: seq<string>)
    requires Strip(t) == t && Complete(t)
    ensures NextLine(t, chunks) == (Some(t[..EolAt(t)]), t[EolAt(t) + 1..], chunks)
    ensures Residue(t) == Residue(t[EolAt(t) + 1..])
  {
  }

  class Reader {
    const buf: array<char>
    var cur: nat
    ghost var end: nat

    ghost predicate Valid()
      reads this, buf
    {
      buf.Length == CAPACITY && Terminated(buf, cur, end)
    }

    /** The text that has been read and not returned. */
    ghost function Pending(): string
      requires Valid()
      reads this, buf
    {
      buf[cur..end]
    }

    /** All reads still to come fit. */
    ghost predicate Ready(tty: Tty)
      reads this, buf, tty
    {
      Valid() && Fits(|Residue(Pending())|, Residue(Pending()), tty.chunks)
    }

    /** The text not yet returned, read or not. */
    ghost function Rest(tty: Tty): string
      requires Valid()
      reads this, buf, tty
    {
      Pending() + Flat(tty.chunks)
    }

    constructor ()
      ensures Valid() && Pending() == [] && fresh(buf)
    {
      buf := new char[CAPACITY](_ => '\0');
      cur, end := 0, 0;
    }

    method SkipNewlines()
      requires Valid()
      modifies `cur
      ensures Valid() && Pending() == Strip(old(Pending()))
    {
      ghost var text := Pending();
      while buf[cur] == '\r' || buf[cur] == '\n'
        invariant Valid() && Strip(Pending()) == Strip(text)
        decreases end - cur
      {
        ghost var before := Pending();
        cur := cur + 1;
        assert Pending() == before[1..];
      }
      assert Pending() != [] ==> Pending()[0] == buf[cur];
    }

    /** findNextEOL: a prompt that ends the text counts as a line; otherwise the next CR or LF, or none. */
    method FindNextEol() returns (eol: Option<nat>)
      requires Valid()
      ensures Pending() == "> " ==> eol == Some(end)
      ensures Pending() != "> " ==> eol == if Complete(Pending()) then Some(cur + EolAt(Pending())) else None
    {
      hide EolAt;
      ghost var text := Pending();
      assert forall j :: cur <= j < end ==> buf[j] == text[j - cur];
      if buf[cur] == '>' && buf[cur + 1] == ' ' && buf[cur + 2] == '\0' {
        assert text == "> ";
        return Some(cur + 2);
      }
      var i := cur;
      while buf[i] != '\0' && buf[i] != '\r' && buf[i] != '\n'
        invariant cur <= i <= end
        invariant forall j :: 0 <= j < i - cur ==> !Eol(text[j])
        decreases end - i
      {
        i := i + 1;
      }
      EolAtIs(text, i - cur);
      eol := if buf[i] == '\0' then None else Some(i);
    }

    /** strlen of what is pending */
    method PendingLength() returns (len: nat)
      requires Valid()
      ensures len == |Pending()|
    {
      len := 0;
      while buf[cur + len] != '\0'
        invariant cur + len <= end
        decreases end - len
      {
        len := len + 1;
      }
    }

    /** Move what is pending, with its terminator, to the front of the buffer; the next read goes behind it. */
    method MoveUp() returns (at: nat)
      requires Valid()
      modifies this, buf
      ensures Valid() && Pending() == old(Pending()) && cur == 0 && at == end == |Pending()|
    {
      ghost var text := Pending();
      at := PendingLength();
      ghost var moved := buf[cur..cur + (at + 1)];
      assert moved[..at] == text && moved[at] == '\0';
      Memory.Copy(buf, 0, buf, cur, at + 1);
      assert buf[..at + 1] == moved;
      cur, end := 0, at;
      assert buf[..at] == buf[..at + 1][..at] && buf[at] == buf[..at + 1][at];
    }

    /** One turn of the read loop: read behind the pending text, terminate, skip newlines. */
    method ReadMore(tty: Tty, at: nat) returns (count: nat)
      requires Valid() && at == end
      requires tty.chunks != [] ==> tty.chunks[0] != [] && '\0' !in tty.chunks[0] && at + |tty.chunks[0]| < CAPACITY
      modifies this, buf, tty
      ensures Valid() && (count == 0 <==> old(tty.chunks) == [])
      ensures old(tty.chunks) == [] ==> tty.chunks == [] && Pending() == old(Pending()) && end == old(end)
      ensures old(tty.chunks) != [] ==>
                && count == |old(tty.chunks)[0]| && tty.chunks == old(tty.chunks)[1..] && end == old(end) + count
                && Pending() == Strip(old(Pending() + tty.chunks[0]))
    {
      ghost var text, chunks := Pending(), tty.chunks;
      count := tty.Read(buf, at);
      assert buf[cur..at] == buf[..at][cur..] == text;
      if count > 0 {
        assert buf[cur..at + count] == buf[cur..at] + buf[at..at + count] == text + chunks[0];
        buf[at + count] := '\0';
        end := at + count;
        assert buf[cur..end] == text + chunks[0];
        SkipNewlines();
      }
    }

    /** readline, as the first line of the text still to be returned. */
    method NextOf(tty: Tty) returns (line: Option<string>)
      requires Ready(tty)
      modifies this, buf, tty
      ensures Ready(tty)
      ensures LinesOf(old(Rest(tty))) == if line.None? then [] else [line.value] + LinesOf(Rest(tty))
      ensures line.Some? ==> |Rest(tty)| < |old(Rest(tty))|
    {
      hide Fits, Residue, LinesOf, Flat;
      NextLineIsFirst(Pending(), tty.chunks);
      line := ReadLine(tty);
    }

    /** One turn of the read loop, and the search for a line end in what it brought. */
    method ReadAndSearch(tty: Tty, at: nat) returns (count: nat, eol: Option<nat>)
      requires Valid() && at == end && Strip(Pending()) == Pending() && !Complete(Pending())
      requires Fits(at, Pending(), tty.chunks)
      modifies this, buf, tty
      ensures Valid() && Strip(Pending()) == Pending() && (count == 0 <==> old(tty.chunks) == [])
      ensures count == 0 ==> tty.chunks == [] && Pending() == old(Pending()) && eol == None
      ensures count > 0 ==> |tty.chunks| < |old(tty.chunks)| && end == at + count
      ensures count > 0 ==> NextLine(Pending(), tty.chunks) == NextLine(old(Pending()), old(tty.chunks))
      ensures eol == None && count > 0 ==> !Complete(Pending()) && Fits(end, Pending(), tty.chunks)
      ensures eol != None ==> Complete(Pending()) && eol == Some(cur + EolAt(Pending()))
      ensures eol != None ==> Fits(|Residue(Pending())|, Residue(Pending()), tty.chunks)
    {
      hide NextLine, Fits, Residue, Strip, EolAt;
      ghost var before, chunks := Pending(), tty.chunks;
      if tty.chunks != [] {
        FitsRead(at, Pending(), tty.chunks);
      }
      count := ReadMore(tty, at);
      eol := None;
      if count > 0 {
        ReadStep(at, before, chunks);
        eol := FindNextEol();
      }
    }

    /** Move an unfinished line up and read until it is finished. */
    method ReadUntilEol(tty: Tty) returns (eol: Option<nat>)
      requires Valid() && Strip(Pending()) == Pending() && !Complete(Pending())
      requires Fits(|Pending()|, Pending(), tty.chunks)
      modifies this, buf, tty
      ensures Valid() && Strip(Pending()) == Pending()
      ensures NextLine(Pending(), tty.chunks) == NextLine(old(Pending()), old(tty.chunks))
      ensures eol == None ==> !Complete(Pending()) && tty.chunks == [] && Fits(|Pending()|, Pending(), [])
      ensures eol != None ==> Complete(Pending()) && eol == Some(cur + EolAt(Pending()))
      ensures eol != None ==> Fits(|Residue(Pending())|, Residue(Pending()), tty.chunks)
    {
      hide NextLine, Fits, Residue, Strip, EolAt;
      ghost var text, chunks := Pending(), tty.chunks;
      var at := MoveUp();
      eol := None;
      while eol == None
        invariant Valid() && at == end
        invariant Strip(Pending()) == Pending()
        invariant NextLine(Pending(), tty.chunks) == NextLine(text, chunks)
        invariant eol == None ==> !Complete(Pending()) && Fits(at, Pending(), tty.chunks)
        invariant eol != None ==> Complete(Pending()) && eol == Some(cur + EolAt(Pending()))
        invariant eol != None ==> Fits(|Residue(Pending())|, Residue(Pending()), tty.chunks)
        decreases |tty.chunks|, eol == None
      {
        ghost var before := Pending();
        var count;
        count, eol := ReadAndSearch(tty, at);
        if count == 0 {
          EndOfInput(at, before);
          return None;
        }
        at := at + count;
      }
    }

    /** readline. The device must leave room for the terminator and must not stop just behind a prompt. */
    method ReadLine(tty: Tty) returns (line: Option<string>)
      requires Ready(tty)
      modifies this, buf, tty
      ensures Ready(tty)
      ensures (line, Pending(), tty.chunks) == NextLine(old(Pending()), old(tty.chunks))
    {
      hide NextLine, Fits, Residue, Strip, EolAt;
      StripFirst(Pending(), tty.chunks);
      SkipNewlines();
      FitsNoPrompt(Pending(), tty.chunks);
      var eol := FindNextEol();
      if eol == None {
        eol := ReadUntilEol(tty);
        if eol == None {
          EndOfInput(|Pending()|, Pending());
          return None;
        }
      }
      NextIsComplete(Pending(), tty.chunks);
      line := TakeLine(eol.value);
    }

    /** Terminate the line in place and step over it. */
    method TakeLine(eol: nat) returns (line: Option<string>)
      requires Valid() && Complete(Pending()) && eol == cur + EolAt(Pending())
      modifies this, buf
      ensures Valid() && line == Some(old(Pending()[..EolAt(Pending())]))
      ensures Pending() == old(Pending()[EolAt(Pending()) + 1..])
    {
      ghost var text := Pending();
      line := Some(buf[cur..eol]);
      assert buf[cur..eol] == text[..EolAt(text)];
      buf[eol] := '\0';
      cur := eol + 1;
      assert buf[cur..end] == text[EolAt(text) + 1..];
    }
  }
}
