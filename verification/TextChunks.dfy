/** Splitting a long message for delivery (core/text_chunks.py), measured in UTF-8 bytes. */
module TextChunks {

  /** Bytes of one code point in UTF-8 (section 3 of RFC 3629). */
  function Width(c: char): (w: nat)
    ensures 1 <= w <= 4
  {
    if c as int < 0x80 then 1
    else if c as int < 0x800 then 2
    else if c as int < 0x10000 then 3
    else 4
  }

  /** The ranges of code points by width. */
  lemma WidthIs(c: char)
    ensures Width(c) == 1 <==> c as int <= 0x7F
    ensures Width(c) == 2 <==> 0x80 <= c as int <= 0x7FF
    ensures Width(c) == 3 <==> 0x800 <= c as int <= 0xFFFF
    ensures Width(c) == 4 <==> 0x10000 <= c as int
  {
  }

  function Bytes(s: string): nat {
    if s == "" then 0 else Bytes(s[..|s| - 1]) + Width(s[|s| - 1])
  }

  function Concat(pieces: seq<string>): string {
    if pieces == [] then "" else pieces[0] + Concat(pieces[1..])
  }

  /** A piece may be sent: it fits, or it is a single character that cannot be cut. */
  predicate Sendable(piece: string, maxBytes: int) {
    |piece| <= 1 || Bytes(piece) <= maxBytes
  }

  ghost predicate IsSplit(pieces: seq<string>, text: string, maxBytes: int) {
    Concat(pieces) == text && forall i :: 0 <= i < |pieces| ==> Sendable(pieces[i], maxBytes)
  }

  /** The pieces are not empty, and no piece had room for the first character of the next. */
  ghost predicate Packed(pieces: seq<string>, maxBytes: int) {
    && (forall i :: 0 <= i < |pieces| ==> pieces[i] != "")
    && (forall i :: 0 <= i < |pieces| - 1 ==> Bytes(pieces[i]) + Width(pieces[i + 1][0]) > maxBytes)
  }

  lemma {:induction false} ConcatLast(pieces: seq<string>, last: string)
    ensures Concat(pieces + [last]) == Concat(pieces) + last
  {
    if pieces == [] {
      assert Concat([last]) == last + Concat([]);
    } else {
      ConcatLast(pieces[1..], last);
      assert (pieces + [last])[1..] == pieces[1..] + [last];
    }
  }

  lemma {:induction false} BytesOfJoin(a: string, b: string)
    ensures Bytes(a + b) == Bytes(a) + Bytes(b)
  {
    if b == "" {
      assert a + b == a;
    } else {
      BytesOfJoin(a, b[..|b| - 1]);
      assert (a + b)[..|a + b| - 1] == a + b[..|b| - 1];
    }
  }

  /** After reading `done`: the closed pieces, and the open one. */
  ghost predicate Filling(chunks: seq<string>, pending: string, done: string, maxBytes: int) {
    && Concat(chunks) + pending == done
    && (forall k :: 0 <= k < |chunks| ==> Sendable(chunks[k], maxBytes))
    && Sendable(pending, maxBytes)
    && (if done == "" then chunks == [] else pending != "" && Packed(chunks + [pending], maxBytes))
  }

  /** One character goes into the open piece, or closes it and opens the next. */
  method Put(chunks: seq<string>, pending: string, size: nat, c: char, maxBytes: int, ghost done: string)
    returns (chunks': seq<string>, pending': string, size': nat)
    requires Filling(chunks, pending, done, maxBytes) && size == Bytes(pending)
    ensures Filling(chunks', pending', done + [c], maxBytes) && size' == Bytes(pending')
  {
    var width := Width(c);
    Fill(chunks, pending, done, c, maxBytes);
    chunks', pending', size' := chunks, pending, size;
    if pending' != "" && size' + width > maxBytes {
      chunks' := chunks' + [pending'];
      pending', size' := "", 0;
    }
    OneMore(pending', c);
    assert "" + [c] == [c];
    pending', size' := pending' + [c], size' + width;
  }

  /** The loop over the characters. */
  method Pack(text: string, maxBytes: int) returns (chunks: seq<string>, pending: string)
    ensures Filling(chunks, pending, text, maxBytes)
  {
    chunks, pending := [], "";
    var size := 0;
    for i := 0 to |text|
      invariant Filling(chunks, pending, text[..i], maxBytes) && size == Bytes(pending)
    {
      chunks, pending, size := Put(chunks, pending, size, text[i], maxBytes, text[..i]);
      assert text[..i + 1] == text[..i] + [text[i]];
    }
    assert text[..|text|] == text;
  }

  /** Closing the open piece completes the split. */
  lemma Closed(chunks: seq<string>, pending: string, text: string, maxBytes: int)
    requires Filling(chunks, pending, text, maxBytes)
    ensures IsSplit(chunks + [pending], text, maxBytes)
    ensures if text == "" then chunks + [pending] == [""] else Packed(chunks + [pending], maxBytes)
  {
    ConcatLast(chunks, pending);
  }

  /** The message is cut into sendable pieces that join back to it, and no other way of cutting
      it into sendable pieces needs fewer of them. An empty message is sent as one empty piece. */
  method TextChunks(text: string, maxBytes: int) returns (chunks: seq<string>)
    ensures IsSplit(chunks, text, maxBytes)
    ensures if text == "" then chunks == [""] else Packed(chunks, maxBytes)
    ensures forall other :: IsSplit(other, text, maxBytes) && other != [] ==> |chunks| <= |other|
  {
    var pending;
    chunks, pending := Pack(text, maxBytes);
    Closed(chunks, pending, text, maxBytes);
    if pending != "" || chunks == [] {
      chunks := chunks + [pending];
    }
    Optimal(chunks, text, maxBytes);
  }

  /** Lengthening the open piece keeps the pieces packed. */
  lemma Lengthened(chunks: seq<string>, pending: string, c: char, maxBytes: int)
    requires pending != "" && Packed(chunks + [pending], maxBytes)
    ensures Packed(chunks + [pending + [c]], maxBytes)
  {
    var before, after := chunks + [pending], chunks + [pending + [c]];
    forall i | 0 <= i < |after| ensures after[i] != "" {
      assert i < |chunks| ==> after[i] == before[i];
    }
    forall i | 0 <= i < |after| - 1 ensures Bytes(after[i]) + Width(after[i + 1][0]) > maxBytes {
      assert after[i] == before[i] && Bytes(before[i]) + Width(before[i + 1][0]) > maxBytes;
    }
  }

  /** Opening a piece for a character that did not fit keeps the pieces packed. */
  lemma Opened(chunks: seq<string>, c: char, maxBytes: int)
    requires Packed(chunks, maxBytes)
    requires chunks != [] ==> Bytes(chunks[|chunks| - 1]) + Width(c) > maxBytes
    ensures Packed(chunks + [[c]], maxBytes)
  {
    var after := chunks + [[c]];
    forall i | 0 <= i < |after| - 1 ensures Bytes(after[i]) + Width(after[i + 1][0]) > maxBytes {
      assert after[i] == chunks[i];
    }
  }

  lemma OneMore(pending: string, c: char)
    ensures Bytes(pending + [c]) == Bytes(pending) + Width(c)
  {
    assert (pending + [c])[..|pending|] == pending;
  }

  lemma FillFirst(c: char, maxBytes: int)
    ensures Filling([], [c], [c], maxBytes)
  {
    Opened([], c, maxBytes);
    assert Concat([]) + [c] == [c];
  }

  lemma FillNext(chunks: seq<string>, pending: string, done: string, c: char, maxBytes: int)
    requires Filling(chunks, pending, done, maxBytes) && pending != "" && Bytes(pending) + Width(c) > maxBytes
    ensures Filling(chunks + [pending], [c], done + [c], maxBytes)
  {
    ConcatLast(chunks, pending);
    Opened(chunks + [pending], c, maxBytes);
  }

  lemma FillOn(chunks: seq<string>, pending: string, done: string, c: char, maxBytes: int)
    requires Filling(chunks, pending, done, maxBytes) && pending != "" && Bytes(pending) + Width(c) <= maxBytes
    ensures Filling(chunks, pending + [c], done + [c], maxBytes)
  {
    assert (Concat(chunks) + pending) + [c] == Concat(chunks) + (pending + [c]);
    OneMore(pending, c);
    Lengthened(chunks, pending, c, maxBytes);
  }

  /** One more character goes into the open piece if it fits and opens a new piece otherwise. */
  lemma Fill(chunks: seq<string>, pending: string, done: string, c: char, maxBytes: int)
    requires Filling(chunks, pending, done, maxBytes)
    ensures if pending != "" && Bytes(pending) + Width(c) > maxBytes
      then Filling(chunks + [pending], [c], done + [c], maxBytes)
      else Filling(chunks, pending + [c], done + [c], maxBytes)
  {
    if pending == "" {
      assert done == "" && done + [c] == [c] == pending + [c];
      FillFirst(c, maxBytes);
    } else if Bytes(pending) + Width(c) > maxBytes {
      FillNext(chunks, pending, done, c, maxBytes);
    } else {
      FillOn(chunks, pending, done, c, maxBytes);
    }
  }

  lemma BytesInside(lead: string, first: string, next: char, rest: string)
    ensures Bytes(lead + (first + ([next] + rest))) >= Bytes(first) + Width(next)
  {
    BytesOfJoin(lead, first + ([next] + rest));
    BytesOfJoin(first, [next] + rest);
    BytesOfJoin([next], rest);
    OneMore("", next);
    assert "" + [next] == [next];
  }

  lemma SecondPiece(chunks: seq<string>)
    requires |chunks| > 1 && chunks[1] != ""
    ensures Concat(chunks) == chunks[0] + ([chunks[1][0]] + (chunks[1][1..] + Concat(chunks[2..])))
  {
    assert chunks[1..][1..] == chunks[2..];
    assert chunks[1] == [chunks[1][0]] + chunks[1][1..];
  }

  lemma Prefix(piece: string, lead: string, first: string, next: char, tail: string)
    requires piece <= lead + (first + ([next] + tail)) && |piece| > |lead| + |first|
    ensures piece == lead + (first + ([next] + piece[|lead| + |first| + 1..]))
  {
  }

  /** A piece that reaches past the first packed piece cannot be sent. */
  lemma Overshoots(lead: string, chunks: seq<string>, piece: string, maxBytes: int)
    requires Packed(chunks, maxBytes) && chunks != []
    requires piece <= lead + Concat(chunks) && |piece| > |lead| + |chunks[0]|
    ensures !Sendable(piece, maxBytes)
  {
    assert |Concat(chunks)| == |chunks[0]| + |Concat(chunks[1..])|;
    assert |chunks| > 1;
    var first, next := chunks[0], chunks[1][0];
    SecondPiece(chunks);
    Prefix(piece, lead, first, next, chunks[1][1..] + Concat(chunks[2..]));
    BytesInside(lead, first, next, piece[|lead| + |first| + 1..]);
    assert Bytes(first) + Width(chunks[0 + 1][0]) > maxBytes;
  }

  /** Packing stays ahead: when the remaining text of another split still includes all of
      `chunks`, that split has at least as many pieces left. */
  lemma {:induction false} NoFewer(lead: string, chunks: seq<string>, other: seq<string>, maxBytes: int)
    requires Packed(chunks, maxBytes) && IsSplit(other, lead + Concat(chunks), maxBytes)
    ensures |chunks| <= |other|
    decreases |other|
  {
    if chunks != [] && other != [] {
      var piece, rest := other[0], other[1..];
      var whole := lead + Concat(chunks);
      assert whole == piece + Concat(rest);
      if |piece| > |lead| + |chunks[0]| {
        Overshoots(lead, chunks, piece, maxBytes);
      } else if |piece| <= |lead| {
        assert Concat(rest) == whole[|piece|..] == lead[|piece|..] + Concat(chunks);
        NoFewer(lead[|piece|..], chunks, rest, maxBytes);
      } else {
        var joined := lead + chunks[0];
        assert whole == joined + Concat(chunks[1..]);
        assert Concat(rest) == whole[|piece|..] == joined[|piece|..] + Concat(chunks[1..]);
        NoFewer(joined[|piece|..], chunks[1..], rest, maxBytes);
      }
    }
  }

  lemma Optimal(chunks: seq<string>, text: string, maxBytes: int)
    requires if text == "" then chunks == [""] else Packed(chunks, maxBytes) && Concat(chunks) == text
    ensures forall other :: IsSplit(other, text, maxBytes) && other != [] ==> |chunks| <= |other|
  {
    forall other | IsSplit(other, text, maxBytes) && other != [] ensures |chunks| <= |other| {
      if text != "" {
        assert "" + Concat(chunks) == text;
        NoFewer("", chunks, other, maxBytes);
      }
    }
  }

  /** Packed sendable pieces are determined by the text. */
  lemma {:induction false} PackedIsUnique(a: seq<string>, b: seq<string>, text: string, maxBytes: int)
    requires Packed(a, maxBytes) && Packed(b, maxBytes)
    requires IsSplit(a, text, maxBytes) && IsSplit(b, text, maxBytes)
    ensures a == b
  {
    if a != [] && b != [] {
      assert "" + text == text;
      if |a[0]| > |b[0]| { Overshoots("", b, a[0], maxBytes); }
      if |b[0]| > |a[0]| { Overshoots("", a, b[0], maxBytes); }
      var n := |a[0]|;
      assert a[0] == text[..n] == b[0];
      assert Concat(a[1..]) == text[n..] == Concat(b[1..]);
      PackedIsUnique(a[1..], b[1..], text[n..], maxBytes);
      assert a == [a[0]] + a[1..] && b == [b[0]] + b[1..];
    }
  }
}
