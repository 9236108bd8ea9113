/** Lines of the AT channel: what they are, and how they come out of a stream read in pieces. */
module AtLines {
  import opened Wire

  predicate Eol(c: char) {
    c == '\r' || c == '\n'
  }

  // ---- the reference: one pass over the characters ----

  /** The non-empty pieces that a CR or LF ends, given the piece under way. */
  function Pieces(s: string, piece: string): seq<string> {
    if s == [] then []
    else if !Eol(s[0]) then Pieces(s[1..], piece + [s[0]])
    else if piece == [] then Pieces(s[1..], [])
    else [piece] + Pieces(s[1..], [])
  }

  function LinesOf(s: string): seq<string> {
    Pieces(s, [])
  }

  function Flat(chunks: seq<string>): string {
    if chunks == [] then [] else chunks[0] + Flat(chunks[1..])
  }

  lemma {:induction false} PiecesOf(a: string, rest: string, piece: string)
    requires forall c :: c in a ==> c != '\r' && c != '\n'
    ensures Pieces(a + rest, piece) == Pieces(rest, piece + a)
  {
    if a == [] {
      AppendNone(rest);
      AppendNone(piece);
    } else {
      assert (a + rest)[0] == a[0] && (a + rest)[1..] == a[1..] + rest && a[0] in a;
      assert forall c :: c in a[1..] ==> c in a;
      PiecesOf(a[1..], rest, piece + [a[0]]);
      AppendAssoc(piece, [a[0]], a[1..]);
      assert [a[0]] + a[1..] == a;
    }
  }

  /** What the lines of a stream are: a text up to a carriage return or line feed is a line unless it is empty, and the rest
      follows; a text that neither ends is no line. */
  lemma LinesExactly(a: string, end: char, rest: string)
    requires forall c :: c in a ==> c != '\r' && c != '\n'
    ensures end == '\r' || end == '\n' ==>
              LinesOf(a + ([end] + rest)) == (if a == [] then [] else [a]) + LinesOf(rest)
    ensures LinesOf(a) == []
  {
    var s := [end] + rest;
    assert s[0] == end && s[1..] == rest;
    PiecesOf(a, s, []);
    PiecesOf(a, [], []);
    AppendNone(a);
    AppendNone(LinesOf(rest));
  }

  // ---- the reader: skip newlines, look for an end of line, read more when there is none ----

  function Strip(s: string): string {
    if s != [] && Eol(s[0]) then Strip(s[1..]) else s
  }

  function EolAt(s: string): (i: nat)
    ensures i <= |s| && (i < |s| ==> Eol(s[i]))
    ensures forall j :: 0 <= j < i ==> !Eol(s[j])
  {
    if s == [] || Eol(s[0]) then 0 else 1 + EolAt(s[1..])
  }

  predicate Complete(s: string) {
    EolAt(s) < |s|
  }

  /** The next line, the text left in the buffer and the reads still to come. */
  function NextLine(text: string, chunks: seq<string>): (Option<string>, string, seq<string>)
    decreases |chunks|
  {
    var t := Strip(text);
    if Complete(t) then (Some(t[..EolAt(t)]), t[EolAt(t) + 1..], chunks)
    else if chunks == [] then (None, t, [])
    else NextLine(t + chunks[0], chunks[1..])
  }

  lemma {:induction false} PiecesOfStripped(s: string, u: string)
    ensures LinesOf(Strip(s) + u) == LinesOf(s + u)
  {
    if s != [] && Eol(s[0]) {
      PiecesOfStripped(s[1..], u);
      assert (s + u)[1..] == s[1..] + u;
    }
  }

  lemma {:induction false} PiecesComplete(t: string, u: string, piece: string)
    requires Complete(t) && (piece != [] || !Eol(t[0]))
    ensures Pieces(t + u, piece) == [piece + t[..EolAt(t)]] + LinesOf(t[EolAt(t) + 1..] + u)
  {
    assert (t + u)[0] == t[0] && (t + u)[1..] == t[1..] + u;
    if Eol(t[0]) {
      AppendNone(piece);
    } else {
      PiecesComplete(t[1..], u, piece + [t[0]]);
      assert t[..EolAt(t)] == [t[0]] + t[1..][..EolAt(t[1..])];
      AppendAssoc(piece, [t[0]], t[1..][..EolAt(t[1..])]);
      assert t[1..][EolAt(t[1..]) + 1..] == t[EolAt(t) + 1..];
    }
  }

  lemma {:induction false} PiecesIncomplete(t: string, piece: string)
    requires !Complete(t)
    ensures Pieces(t, piece) == []
  {
    if t != [] {
      assert EolAt(t) == 1 + EolAt(t[1..]);
      PiecesIncomplete(t[1..], piece + [t[0]]);
    }
  }

  lemma {:induction false} StripShape(s: string)
    ensures |Strip(s)| <= |s| && (Strip(s) != [] ==> !Eol(Strip(s)[0]))
    ensures Strip(Strip(s)) == Strip(s)
  {
    if s != [] && Eol(s[0]) {
      StripShape(s[1..]);
    }
  }

  /** The next line is the first of the lines of all that is pending and to come. */
  lemma {:induction false} NextLineIsFirst(text: string, chunks: seq<string>)
    ensures var (line, rest, more) := NextLine(text, chunks);
            && (line.None? ==> LinesOf(text + Flat(chunks)) == [])
            && (line.Some? ==> LinesOf(text + Flat(chunks)) == [line.value] + LinesOf(rest + Flat(more)))
            && |rest + Flat(more)| <= |text + Flat(chunks)|
            && (line.Some? ==> |rest + Flat(more)| < |text + Flat(chunks)|)
    decreases |chunks|
  {
    var t := Strip(text);
    StripShape(text);
    PiecesOfStripped(text, Flat(chunks));
    if Complete(t) {
      PiecesComplete(t, Flat(chunks), []);
      AppendNone(t[..EolAt(t)]);
    } else if chunks == [] {
      AppendNone(t);
      AppendNone(text);
      PiecesIncomplete(t, []);
    } else {
      NextLineIsFirst(t + chunks[0], chunks[1..]);
      AppendAssoc(t, chunks[0], Flat(chunks[1..]));
    }
  }

  /** All the lines that reading to the end of input returns. */
  function AllLines(text: string, chunks: seq<string>): seq<string>
    decreases |text + Flat(chunks)|
  {
    NextLineIsFirst(text, chunks);
    var (line, rest, more) := NextLine(text, chunks);
    if line.None? then [] else [line.value] + AllLines(rest, more)
  }

  /** Chunk independence: the lines are the pieces of the concatenated input, however it was cut into reads. */
  lemma {:induction false} ChunkIndependence(text: string, chunks: seq<string>)
    ensures AllLines(text, chunks) == LinesOf(text + Flat(chunks))
    decreases |text + Flat(chunks)|
  {
    NextLineIsFirst(text, chunks);
    var (line, rest, more) := NextLine(text, chunks);
    if line.Some? {
      ChunkIndependence(rest, more);
    }
  }

  // ---- when the buffer suffices ----

  /** sizeof(cm_recv_buf) */
  const CAPACITY := 4096

  /** What is left of a text when all its complete lines are gone. */
  function Residue(text: string): (r: string)
    decreases |text|
  {
    StripShape(text);
    var t := Strip(text);
    if Complete(t) then Residue(t[EolAt(t) + 1..]) else t
  }

  /** Every read leaves room for its terminator, brings something, and never ends just behind a "> " that begins a line;
      used is where in the buffer the next read goes. */
  predicate Fits(used: nat, pending: string, chunks: seq<string>)
    decreases |chunks|
  {
    && pending != "> "
    && (chunks != [] ==>
          var c := chunks[0];
          var t := Strip(pending + c);
          && c != [] && '\0' !in c && used + |c| < CAPACITY
          && if Complete(t) then Fits(|Residue(t)|, Residue(t), chunks[1..]) else Fits(used + |c|, t, chunks[1..]))
  }

  lemma {:induction false} EolAtIs(s: string, k: nat)
    requires k <= |s| && (forall j :: 0 <= j < k ==> !Eol(s[j])) && (k == |s| || Eol(s[k]))
    ensures EolAt(s) == k
  {
  }

  /** Skipping newlines first makes no difference to the next line or to what is left in the end. */
  lemma {:induction false} StripFirst(text: string, chunks: seq<string>)
    ensures NextLine(text, chunks) == NextLine(Strip(text), chunks)
    ensures Residue(text) == Residue(Strip(text))
    ensures Strip(Strip(text)) == Strip(text)
    ensures !Complete(Strip(text)) ==> Residue(text) == Strip(text)
  {
    StripShape(text);
  }

  /** One more read for a text without a complete line. */
  lemma ReadStep(used: nat, t: string, chunks: seq<string>)
    requires chunks != [] && Strip(t) == t && !Complete(t) && Fits(used, t, chunks)
    ensures var c := chunks[0];
            var t1 := Strip(t + c);
            && NextLine(t, chunks) == NextLine(t1, chunks[1..])
            && Strip(t1) == t1 && t1 != "> "
            && (Complete(t1) ==> Fits(|Residue(t1)|, Residue(t1), chunks[1..]))
            && (!Complete(t1) ==> Fits(used + |c|, t1, chunks[1..]))
  {
    StripFirst(t + chunks[0], chunks[1..]);
    EolAtIs("> ", 2);
  }

  predicate PromptAt(s: string, i: nat) {
    i + 1 < |s| && (i == 0 || Eol(s[i - 1])) && s[i] == '>' && s[i + 1] == ' '
  }

  /** No line of the stream, finished or not, begins with the prompt. */
  ghost predicate NoPrompt(s: string) {
    forall i: nat :: !PromptAt(s, i)
  }

  /** What follows a begins a line. */
  predicate AtLineStart(a: string) {
    a == [] || Eol(a[|a| - 1])
  }

  lemma NoPromptBehind(a: string, b: string)
    requires NoPrompt(a + b) && AtLineStart(a)
    ensures NoPrompt(b)
  {
    forall i: nat ensures !PromptAt(b, i) {
      if PromptAt(b, i) {
        var s, j := a + b, |a| + i;
        assert s[j] == b[i] && s[j + 1] == b[i + 1];
        assert j == 0 || s[j - 1] == if i == 0 then a[|a| - 1] else b[i - 1];
        assert PromptAt(s, j);
      }
    }
  }

  lemma {:induction false} StripCuts(s: string) returns (a: string)
    ensures s == a + Strip(s) && AtLineStart(a)
  {
    if s != [] && Eol(s[0]) {
      var b := StripCuts(s[1..]);
      a := [s[0]] + b;
      assert s == [s[0]] + s[1..];
    } else {
      a := [];
    }
  }

  lemma LineCut(t: string, b: string, c: string, r: string) returns (a: string)
    requires Complete(t) && t[EolAt(t) + 1..] == c + r && AtLineStart(c)
    ensures a + r == b + t && AtLineStart(a)
  {
    var e := EolAt(t) + 1;
    a := b + t[..e] + c;
    assert t == t[..e] + t[e..];
    AppendAssoc(b + t[..e], c, r);
    AppendAssoc(b, t[..e], t[e..]);
    if c == [] {
      AppendNone(b + t[..e]);
      assert a[|a| - 1] == t[e - 1];
    } else {
      assert a[|a| - 1] == c[|c| - 1];
    }
  }

  lemma {:induction false} ResidueCuts(s: string) returns (a: string)
    ensures s == a + Residue(s) && AtLineStart(a)
    decreases |s|
  {
    hide AtLineStart, Strip, Eol;
    StripShape(s);
    var t := Strip(s);
    a := StripCuts(s);
    if Complete(t) {
      var c := ResidueCuts(t[EolAt(t) + 1..]);
      a := LineCut(t, a, c, Residue(s));
    }
  }

  lemma NoPromptTail(s: string, u: string, a: string, r: string)
    requires NoPrompt(s + u) && s == a + r && AtLineStart(a)
    ensures NoPrompt(r + u) && r != "> "
  {
    AppendAssoc(a, r, u);
    NoPromptBehind(a, r + u);
    if r == "> " {
      assert PromptAt(r + u, 0);
    }
  }

  /** Any cutting of a stream of fewer than 4096 characters, without a prompt line, into non-empty reads fits. */
  lemma {:induction false} ShortStreamFits(used: nat, pending: string, chunks: seq<string>)
    requires |pending| <= used && used + |Flat(chunks)| < 4096
    requires forall c :: c in chunks ==> c != [] && '\0' !in c
    requires NoPrompt(pending + Flat(chunks))
    ensures Fits(used, pending, chunks)
    decreases |chunks|
  {
    AppendNone(pending);
    assert AtLineStart([]);
    hide NoPrompt, AtLineStart, EolAt, Strip;
    NoPromptTail(pending, Flat(chunks), [], pending);
    if chunks != [] {
      var c, u := chunks[0], Flat(chunks[1..]);
      assert c in chunks && forall d :: d in chunks[1..] ==> d in chunks;
      AppendAssoc(pending, c, u);
      StripShape(pending + c);
      var a := StripCuts(pending + c);
      var t := Strip(pending + c);
      NoPromptTail(pending + c, u, a, t);
      if Complete(t) {
        var b := ResidueCuts(t);
        NoPromptTail(t, u, b, Residue(t));
        ShortStreamFits(|Residue(t)|, Residue(t), chunks[1..]);
      } else {
        ShortStreamFits(used + |c|, t, chunks[1..]);
      }
    }
  }

  // ---- streams of any length ----

  /** Any m characters in a row finish a line that is not empty. */
  ghost predicate Dense(s: string, m: nat) {
    forall i, j :: 0 <= i <= j <= |s| && j - i >= m ==> Complete(Strip(s[i..j]))
  }

  lemma DenseTail(a: string, b: string, m: nat)
    requires Dense(a + b, m)
    ensures Dense(b, m)
  {
    hide Complete, Strip;
    forall i, j | 0 <= i <= j <= |b| && j - i >= m ensures Complete(Strip(b[i..j])) {
      assert (a + b)[|a| + i..|a| + j] == b[i..j];
    }
  }

  lemma {:induction false} DenseFront(a: string, b: string, m: nat)
    requires Dense(a + b, m) && !Complete(Strip(a))
    ensures |a| < m
  {
    hide Complete, Strip;
    assert (a + b)[0..|a|] == a;
  }

  lemma {:induction false} StripAppend(a: string, b: string)
    ensures Strip(Strip(a) + b) == Strip(a + b)
  {
    if a != [] && Eol(a[0]) {
      assert (a + b)[1..] == a[1..] + b;
      StripAppend(a[1..], b);
    }
  }

  lemma {:induction false} ResidueIncomplete(s: string)
    ensures Strip(Residue(s)) == Residue(s) && !Complete(Residue(s))
    decreases |s|
  {
    StripShape(s);
    var t := Strip(s);
    if Complete(t) {
      ResidueIncomplete(t[EolAt(t) + 1..]);
    }
  }

  /** However long the stream: when any m characters finish a line and no read brings more than the rest of the buffer,
      every read fits. raw is what was read since the last finished line, newlines and all. */
  lemma {:induction false} DenseStreamFits(raw: string, chunks: seq<string>, m: nat)
    requires m < CAPACITY && !Complete(Strip(raw)) && Dense(raw + Flat(chunks), m) && NoPrompt(raw + Flat(chunks))
    requires forall c :: c in chunks ==> c != [] && '\0' !in c && |c| <= CAPACITY - m
    ensures Fits(|raw|, Strip(raw), chunks)
    decreases |chunks|
  {
    var a := StripCuts(raw);
    NoPromptTail(raw, Flat(chunks), a, Strip(raw));
    hide NoPrompt, Dense, AtLineStart, EolAt, Strip, Complete;
    DenseFront(raw, Flat(chunks), m);
    if chunks != [] {
      var c, u := chunks[0], Flat(chunks[1..]);
      assert c in chunks && forall d :: d in chunks[1..] ==> d in chunks;
      AppendAssoc(raw, c, u);
      StripAppend(raw, c);
      var t := Strip(raw + c);
      if Complete(t) {
        var b := ResidueCuts(raw + c);
        NoPromptTail(raw + c, u, b, Residue(raw + c));
        AppendAssoc(b, Residue(raw + c), u);
        DenseTail(b, Residue(raw + c) + u, m);
        ResidueIncomplete(raw + c);
        StripFirst(raw + c, []);
        DenseStreamFits(Residue(raw + c), chunks[1..], m);
      } else {
        DenseStreamFits(raw + c, chunks[1..], m);
      }
    }
  }
}
