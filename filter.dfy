/** The line filter of filter/filter.go: a split function for a buffered scanner
    that ends lines at "\n", "\r" and "\r\n" (also when the "\r\n" pair is cut
    in two by the reader), and LineFilter, which passes every line through a
    filter function and writes the non-empty results. */
module Filter {
  import opened Wrappers

  const LF: byte := 10
  const CR: byte := 13

  predicate IsTerminator(b: byte) {
    b == LF || b == CR
  }

  predicate NoTerminator(s: seq<byte>) {
    forall j :: 0 <= j < |s| ==> !IsTerminator(s[j])
  }

  /** bytes.IndexAny(data, "\r\n"): the index of the first CR or LF, or -1. */
  function IndexAny(data: seq<byte>): (i: int)
    ensures -1 <= i < |data|
    ensures i >= 0 ==> IsTerminator(data[i]) && NoTerminator(data[..i])
    ensures i < 0 ==> NoTerminator(data)
  {
    if |data| == 0 then -1
    else if IsTerminator(data[0]) then 0
    else
      var k := IndexAny(data[1..]);
      assert data[1..][..k + 1] == data[1..k + 2] by {
        if k >= 0 { assert data[1..][..k] == data[1..k + 1]; }
      }
      if k < 0 then -1 else k + 1
  }

  /** The lines of a complete input: every "\n", "\r" or "\r\n" ends a line, and
      a last line without a terminator counts when it is not empty. */
  function Lines(input: seq<byte>): (lines: seq<seq<byte>>)
    ensures forall k :: 0 <= k < |lines| ==> NoTerminator(lines[k])
    decreases |input|
  {
    if input == [] then []
    else
      var i := IndexAny(input);
      if i < 0 then [input]
      else if input[i] == CR && i + 1 < |input| && input[i + 1] == LF then [input[..i]] + Lines(input[i + 2..])
      else [input[..i]] + Lines(input[i + 1..])
  }

  /** What one call of the split function returns, and the splitter's new afterCR flag. */
  datatype Step = Step(advance: nat, token: Option<seq<byte>>, afterCR: bool)

  /** lineSplitter.Split, as a function of the afterCR flag before the call.
      The scanner never calls it with no data unless the input has ended. */
  function SplitStep(afterCR: bool, data: seq<byte>, atEOF: bool): (r: Step)
    requires atEOF || |data| > 0
    ensures r.advance <= |data|
    ensures r.token.Some? ==>
      && 0 < r.advance && |r.token.value| <= r.advance
      && r.token.value == data[..|r.token.value|]
      && NoTerminator(r.token.value)
    ensures r.token.None? && r.advance > 0 ==> r.advance == 1 && afterCR && data[0] == LF && !r.afterCR
    ensures r.afterCR ==> (data == [] && afterCR) || (r.advance == |data| > 0 && data[|data| - 1] == CR)
    ensures atEOF && |data| > 0 ==> r.advance > 0
  {
    if atEOF && |data| == 0 then Step(0, None, afterCR)
    else if afterCR && data[0] == LF then Step(1, None, false)
    else
      var i := IndexAny(data);
      if i >= 0 then
        if data[i] == LF then Step(i + 1, Some(data[..i]), false)
        else if |data| == i + 1 then Step(i + 1, Some(data[..i]), true)
        else if data[i + 1] == LF then Step(i + 2, Some(data[..i]), false)
        else Step(i + 1, Some(data[..i]), false)
      else if atEOF then Step(|data|, Some(data), false)
      else Step(0, None, false)
  }

  /** The splitter object handed to the scanner; afterCR remembers that the
      previous call ended on a carriage return. */
  class LineSplitter {
    var afterCR: bool

    constructor ()
      ensures !afterCR
    {
      afterCR := false;
    }

    method Split(data: seq<byte>, atEOF: bool) returns (advance: nat, token: Option<seq<byte>>)
      requires atEOF || |data| > 0
      modifies this
      ensures Step(advance, token, afterCR) == SplitStep(old(afterCR), data, atEOF)
    {
      if atEOF && |data| == 0 {
        return 0, None;
      }
      if afterCR {
        afterCR := false;
        if data[0] == LF {
          // the newline of a "\r\n" pair whose "\r" ended the previous call
          return 1, None;
        }
      }
      var i := IndexAny(data);
      if i >= 0 {
        if data[i] == LF {
          return i + 1, Some(data[..i]);
        }
        advance := i + 1;
        if |data| == i + 1 {
          // the next byte is not known yet: it may be the "\n" of "\r\n"
          afterCR := true;
        } else if data[i + 1] == LF {
          advance := advance + 1;
        }
        return advance, Some(data[..i]);
      }
      if atEOF {
        return |data|, Some(data);
      }
      return 0, None;
    }
  }

  /** The input a reader delivers: its chunks in order; whether the last chunk
      comes together with the end of the input (an io.Reader may return data
      and io.EOF from one Read) rather than from a later, empty read; and
      whether the input ends in a read error instead of io.EOF. */
  datatype Reader = Reader(chunks: seq<seq<byte>>, eofWithLast: bool, fails: bool)

  function Flatten(chunks: seq<seq<byte>>): seq<byte>
  {
    if chunks == [] then [] else chunks[0] + Flatten(chunks[1..])
  }

  /** A split function as the scanner calls it: the one of filter.go, or (fixed)
      the corrected one below. */
  function SplitWith(fixed: bool, afterCR: bool, data: seq<byte>, atEOF: bool): (r: Step)
    requires atEOF || |data| > 0
    ensures r.advance <= |data|
    ensures r.token.Some? ==> r.advance > 0
  {
    if fixed then SplitStepFixed(afterCR, data, atEOF) else SplitStep(afterCR, data, atEOF)
  }

  /** The tokens bufio.Scanner still produces from a state: the splitter's flag,
      the buffered unconsumed data, the chunks the reader has not delivered yet
      and whether the reader has reported the end. The scanner offers its buffer
      to the split function whenever it is non-empty or the input has ended;
      when no token comes back it reads more, except that once the input has
      ended it stops. */
  function ScanFrom(fixed: bool, afterCR: bool, buf: seq<byte>, chunks: seq<seq<byte>>, ended: bool, eofWithLast: bool): seq<seq<byte>>
    requires ended ==> chunks == []
    decreases |chunks|, if ended then 0 else 1, |buf|, 1
  {
    if |buf| > 0 || ended then
      var r := SplitWith(fixed, afterCR, buf, ended);
      if r.token.Some? then [r.token.value] + ScanFrom(fixed, r.afterCR, buf[r.advance..], chunks, ended, eofWithLast)
      else if ended then []
      else ReadMore(fixed, r.afterCR, buf[r.advance..], chunks, eofWithLast)
    else ReadMore(fixed, afterCR, buf, chunks, eofWithLast)
  }

  /** One Read of the scanner: the next chunk is appended to the buffer, or the
      end of the input is noticed. A read that returns no data and no error is
      retried without calling the split function again; a last empty chunk
      that comes with the end of the input is the end itself. */
  function ReadMore(fixed: bool, afterCR: bool, buf: seq<byte>, chunks: seq<seq<byte>>, eofWithLast: bool): seq<seq<byte>>
    decreases |chunks|, 1, 0, 0
  {
    if chunks == [] then ScanFrom(fixed, afterCR, buf, [], true, eofWithLast)
    else if chunks[0] == [] && !(eofWithLast && |chunks| == 1) then ReadMore(fixed, afterCR, buf, chunks[1..], eofWithLast)
    else ScanFrom(fixed, afterCR, buf + chunks[0], chunks[1..], eofWithLast && |chunks| == 1, eofWithLast)
  }

  lemma ScanFromSplit(afterCR: bool, buf: seq<byte>, chunks: seq<seq<byte>>, ended: bool, eofWithLast: bool)
    requires ended ==> chunks == []
    requires |buf| > 0 || ended
    ensures var r := SplitStep(afterCR, buf, ended);
      ScanFrom(false, afterCR, buf, chunks, ended, eofWithLast) ==
        if r.token.Some? then [r.token.value] + ScanFrom(false, r.afterCR, buf[r.advance..], chunks, ended, eofWithLast)
        else if ended then []
        else ReadMore(false, r.afterCR, buf[r.advance..], chunks, eofWithLast)
  {
  }

  lemma ScanFromRead(afterCR: bool, buf: seq<byte>, chunks: seq<seq<byte>>, eofWithLast: bool)
    requires buf == []
    ensures ScanFrom(false, afterCR, buf, chunks, false, eofWithLast) == ReadMore(false, afterCR, buf, chunks, eofWithLast)
  {
  }

  /** All tokens a fresh scanner with the filter.go splitter produces. */
  function ScanAll(reader: Reader): seq<seq<byte>>
  {
    ScanFrom(false, false, [], reader.chunks, false, reader.eofWithLast)
  }

  /** The lines still to come from unconsumed input, when the previous call of
      the splitter may have ended on a carriage return. */
  function Pending(afterCR: bool, rest: seq<byte>): seq<seq<byte>>
  {
    Lines(if afterCR && |rest| > 0 && rest[0] == LF then rest[1..] else rest)
  }

  function TokenList(token: Option<seq<byte>>): seq<seq<byte>>
  {
    if token.Some? then [token.value] else []
  }

  lemma IndexAnyUnique(data: seq<byte>, i: int)
    requires -1 <= i < |data|
    requires i >= 0 ==> IsTerminator(data[i]) && NoTerminator(data[..i])
    requires i < 0 ==> NoTerminator(data)
    ensures IndexAny(data) == i
  {
  }

  lemma IndexAnyAppend(data: seq<byte>, rest: seq<byte>)
    requires IndexAny(data) >= 0
    ensures IndexAny(data + rest) == IndexAny(data)
  {
    var i := IndexAny(data);
    assert (data + rest)[..i] == data[..i];
    IndexAnyUnique(data + rest, i);
  }

  /** One call of the filter.go split function consumes the unconsumed input
      without changing the lines it stands for: the token it returns (if any)
      is the first of those lines, and the rest are the lines of what it leaves. */
  lemma SplitStepPending(afterCR: bool, data: seq<byte>, atEOF: bool, rest: seq<byte>)
    requires atEOF || |data| > 0
    requires atEOF ==> rest == []
    ensures var r := SplitStep(afterCR, data, atEOF);
      Pending(afterCR, data + rest) == TokenList(r.token) + Pending(r.afterCR, data[r.advance..] + rest)
  {
    var r := SplitStep(afterCR, data, atEOF);
    var all := data + rest;
    if atEOF && |data| == 0 {
      assert data[r.advance..] + rest == all;
    } else if afterCR && data[0] == LF {
      assert all[1..] == data[1..] + rest;
    } else if IndexAny(data) >= 0 {
      assert Pending(afterCR, all) == Lines(all);
      assert r == SplitStep(false, data, atEOF);
      TerminatorPending(data, atEOF, rest);
    } else if atEOF {
      assert all == data;
      assert Lines(data) == [data];
      assert data[r.advance..] + rest == [];
    } else {
      assert data[r.advance..] + rest == all;
    }
  }

  lemma DropAppend(data: seq<byte>, rest: seq<byte>, k: nat)
    requires k <= |data|
    ensures (data + rest)[k..] == data[k..] + rest
  {
  }

  lemma TerminatorPending(data: seq<byte>, atEOF: bool, rest: seq<byte>)
    requires |data| > 0 && IndexAny(data) >= 0
    ensures var r := SplitStep(false, data, atEOF);
      Lines(data + rest) == TokenList(r.token) + Pending(r.afterCR, data[r.advance..] + rest)
  {
    var all := data + rest;
    var i := IndexAny(data);
    var r := SplitStep(false, data, atEOF);
    IndexAnyAppend(data, rest);
    assert all[..i] == data[..i];
    assert all[i] == data[i];
    if data[i] == LF {
      assert r == Step(i + 1, Some(data[..i]), false);
      DropAppend(data, rest, i + 1);
      assert Lines(all) == [all[..i]] + Lines(all[i + 1..]);
    } else if |data| == i + 1 {
      assert r == Step(i + 1, Some(data[..i]), true);
      assert data[i + 1..] + rest == rest;
      if |rest| > 0 && rest[0] == LF {
        assert all[i + 1] == rest[0];
        assert all[i + 2..] == rest[1..];
        assert Lines(all) == [all[..i]] + Lines(all[i + 2..]);
      } else {
        assert all[i + 1..] == rest;
        assert Lines(all) == [all[..i]] + Lines(all[i + 1..]);
      }
    } else if data[i + 1] == LF {
      assert r == Step(i + 2, Some(data[..i]), false);
      assert all[i + 1] == data[i + 1];
      DropAppend(data, rest, i + 2);
      assert Lines(all) == [all[..i]] + Lines(all[i + 2..]);
    } else {
      assert r == Step(i + 1, Some(data[..i]), false);
      assert all[i + 1] == data[i + 1];
      DropAppend(data, rest, i + 1);
      assert Lines(all) == [all[..i]] + Lines(all[i + 1..]);
    }
  }

  /** When the reader reports the end of the input by a separate empty read, the
      scanner with the filter.go splitter produces exactly the lines of the input,
      however the input is cut into chunks. */
  lemma {:induction false} ScanSeparateEnd(afterCR: bool, buf: seq<byte>, chunks: seq<seq<byte>>, ended: bool)
    requires ended ==> chunks == [] && (afterCR ==> buf == [])
    ensures ScanFrom(false, afterCR, buf, chunks, ended, false) == Pending(afterCR, buf + Flatten(chunks))
    decreases |chunks|, if ended then 0 else 1, |buf|, 1
  {
    if |buf| > 0 || ended {
      var r := SplitStep(afterCR, buf, ended);
      SplitStepPending(afterCR, buf, ended, Flatten(chunks));
      var left := buf[r.advance..];
      if r.token.Some? {
        ScanSeparateEnd(r.afterCR, left, chunks, ended);
      } else if ended {
        assert buf == [];
      } else {
        assert !r.afterCR;
        ReadMoreSeparateEnd(r.afterCR, left, chunks);
      }
    } else {
      ReadMoreSeparateEnd(afterCR, buf, chunks);
    }
  }

  /** The scanner reads only with an empty buffer or after a split that left
      the flag clear, so afterCR comes with an empty buffer here. */
  lemma {:induction false} ReadMoreSeparateEnd(afterCR: bool, buf: seq<byte>, chunks: seq<seq<byte>>)
    requires afterCR ==> buf == []
    ensures ReadMore(false, afterCR, buf, chunks, false) == Pending(afterCR, buf + Flatten(chunks))
    decreases |chunks|, 1, 0, 0
  {
    if chunks == [] {
      ScanSeparateEnd(afterCR, buf, [], true);
    } else if chunks[0] == [] {
      ReadMoreSeparateEnd(afterCR, buf, chunks[1..]);
      assert Flatten(chunks) == chunks[0] + Flatten(chunks[1..]) == Flatten(chunks[1..]);
    } else {
      ScanSeparateEnd(afterCR, buf + chunks[0], chunks[1..], false);
      assert buf + chunks[0] + Flatten(chunks[1..]) == buf + Flatten(chunks);
    }
  }

  lemma ScanAllIsLines(reader: Reader)
    requires !reader.eofWithLast
    ensures ScanAll(reader) == Lines(Flatten(reader.chunks))
  {
    ReadMoreSeparateEnd(false, [], reader.chunks);
    assert [] + Flatten(reader.chunks) == Flatten(reader.chunks);
  }

  /** A read that returns no data is retried without a split: "a\r", "\nb\r",
      an empty read, then "\nc" together with the end of input yields every line. */
  lemma EmptyReadRetried()
    ensures var reader := Reader([[97, CR], [LF, 98, CR], [], [LF, 99]], true, false);
      ScanAll(reader) == [[97], [98], [99]] == Lines(Flatten(reader.chunks))
  {
    var a: seq<byte> := [97, CR];
    var b: seq<byte> := [LF, 98, CR];
    var c: seq<byte> := [LF, 99];
    EmptyReadTail();
    assert IndexAny(a) == 1 && a[..1] == [97] && a[2..] == [];
    assert SplitStep(false, a, false) == Step(2, Some([97]), true);
    assert [] + a == a;
    assert ScanFrom(false, false, a, [b, [], c], false, true) == [[97], [98], [99]];
    assert [a, b, [], c][1..] == [b, [], c];
    assert ReadMore(false, false, [], [a, b, [], c], true) == [[97], [98], [99]];
    EmptyReadLines();
  }

  /** The scan after the line "a": the empty read is skipped, and "b\r\nc" is split at the end of input. */
  lemma EmptyReadTail()
    ensures ReadMore(false, true, [], [[LF, 98, CR], [], [LF, 99]], true) == [[98], [99]]
  {
    var b: seq<byte> := [LF, 98, CR];
    var c: seq<byte> := [LF, 99];
    var bc: seq<byte> := [98, CR, LF, 99];
    assert IndexAny(bc) == 1;
    assert bc[..1] == [98] && bc[3..] == [99];
    assert IndexAny([99]) == -1;
    assert SplitStep(false, bc, true) == Step(3, Some([98]), false);
    assert SplitStep(false, [99], true) == Step(1, Some([99]), false);
    assert ScanFrom(false, false, [], [], true, true) == [];
    assert [99][1..] == [];
    assert ScanFrom(false, false, [99], [], true, true) == [[99]];
    assert ScanFrom(false, false, bc, [], true, true) == [[98], [99]];
    assert b[1..] + c == bc;
    assert [[], c][1..] == [c] && [c][1..] == [];
    assert ReadMore(false, false, b[1..], [c], true) == [[98], [99]];
    assert ReadMore(false, false, b[1..], [[], c], true) == [[98], [99]];
    assert SplitStep(true, b, false) == Step(1, None, false);
    assert [] + b == b;
    assert ScanFrom(false, true, b, [[], c], false, true) == [[98], [99]];
    assert [b, [], c][1..] == [[], c];
  }

  lemma EmptyReadLines()
    ensures Lines(Flatten([[97, CR], [LF, 98, CR], [], [LF, 99]])) == [[97], [98], [99]]
  {
    var a: seq<byte> := [97, CR];
    var b: seq<byte> := [LF, 98, CR];
    var c: seq<byte> := [LF, 99];
    var bc: seq<byte> := [98, CR, LF, 99];
    var all: seq<byte> := [97, CR, LF, 98, CR, LF, 99];
    assert Flatten([c]) == c;
    assert Flatten([[], c]) == c;
    assert Flatten([b, [], c]) == b + c;
    assert Flatten([a, b, [], c]) == all;
    assert IndexAny(all) == 1 && all[..1] == [97] && all[3..] == bc;
    assert IndexAny(bc) == 1 && bc[..1] == [98] && bc[3..] == [99];
    assert IndexAny([99]) == -1;
    assert Lines(all) == [[97]] + Lines(bc);
    assert Lines(bc) == [[98]] + Lines([99]);
  }

  /** When the chunk right after a chunk ending in "\r" starts with "\n" and
      arrives together with the end of the input, the scanner stops after the
      split function skips that "\n", and the rest of that chunk is lost:
      "a\r" then "\nb" yields only the line "a". */
  lemma CrLfAcrossFinalReadDropsLine()
    ensures var reader := Reader([[97, CR], [LF, 98]], true, false);
      ScanAll(reader) == [[97]] && Lines(Flatten(reader.chunks)) == [[97], [98]]
  {
    var a: seq<byte> := [97, CR];
    var b: seq<byte> := [LF, 98];
    assert Flatten([b]) == b;
    assert Flatten([a, b]) == [97, CR, LF, 98];
    assert IndexAny(a) == 1;
    assert a[..1] == [97];
    assert SplitStep(false, a, false) == Step(2, Some([97]), true);
    assert a[2..] == [];
    assert SplitStep(true, b, true) == Step(1, None, false);
    assert ScanFrom(false, true, b, [], true, true) == [];
    assert [] + b == b;
    assert ReadMore(false, true, [], [b], true) == [];
    assert ScanFrom(false, true, [], [b], false, true) == [];
    assert [] + a == a;
    assert ScanFrom(false, false, a, [b], false, true) == [[97]];
    assert ReadMore(false, false, [], [a, b], true) == [[97]];
    var all: seq<byte> := [97, CR, LF, 98];
    assert IndexAny(all) == 1;
    assert all[..1] == [97];
    assert all[3..] == [98];
    assert IndexAny([98]) == -1;
    assert Lines([98]) == [[98]];
  }

  /** The split function with the skipped "\n" fixed: after a carriage return
      that ended the previous call, a leading "\n" is consumed together with
      whatever the same call finds after it, so the scanner never sees a call
      that advances without a token while data remains at the end of input. */
  function SplitStepFixed(afterCR: bool, data: seq<byte>, atEOF: bool): (r: Step)
    requires atEOF || |data| > 0
    ensures r.advance <= |data|
    ensures r.token.Some? ==> 0 < r.advance && NoTerminator(r.token.value)
    ensures atEOF && r.token.None? ==> r.advance == |data|
  {
    if afterCR && |data| > 0 && data[0] == LF then
      if |data| == 1 then Step(1, None, false)
      else
        var r := SplitStep(false, data[1..], atEOF);
        Step(r.advance + 1, r.token, r.afterCR)
    else SplitStep(afterCR, data, atEOF)
  }

  lemma SplitStepFixedPending(afterCR: bool, data: seq<byte>, atEOF: bool, rest: seq<byte>)
    requires atEOF || |data| > 0
    requires atEOF ==> rest == []
    ensures var r := SplitStepFixed(afterCR, data, atEOF);
      Pending(afterCR, data + rest) == TokenList(r.token) + Pending(r.afterCR, data[r.advance..] + rest)
  {
    if afterCR && |data| > 0 && data[0] == LF {
      if |data| == 1 {
        assert (data + rest)[1..] == rest;
        assert data[1..] + rest == rest;
      } else {
        SkippedLFPending(data, atEOF, rest);
      }
    } else {
      SplitStepPending(afterCR, data, atEOF, rest);
    }
  }

  /** The fixed split function's case of a "\n" completing a "\r\n" pair
      followed by more data. */
  lemma SkippedLFPending(data: seq<byte>, atEOF: bool, rest: seq<byte>)
    requires |data| > 1 && data[0] == LF
    requires atEOF ==> rest == []
    ensures var r := SplitStepFixed(true, data, atEOF);
      Pending(true, data + rest) == TokenList(r.token) + Pending(r.afterCR, data[r.advance..] + rest)
  {
    var tail := data[1..];
    var r := SplitStep(false, tail, atEOF);
    var f := SplitStepFixed(true, data, atEOF);
    assert f == Step(r.advance + 1, r.token, r.afterCR);
    assert (data + rest)[1..] == tail + rest;
    assert Pending(true, data + rest) == Lines(tail + rest);
    SplitStepPending(false, tail, atEOF, rest);
    assert data[f.advance..] == tail[r.advance..];
  }

  /** With the fixed split function the scanner produces exactly the lines of
      the input for every reader. */
  lemma {:induction false} ScanFixedIsPending(afterCR: bool, buf: seq<byte>, chunks: seq<seq<byte>>, ended: bool, eofWithLast: bool)
    requires ended ==> chunks == []
    ensures ScanFrom(true, afterCR, buf, chunks, ended, eofWithLast) == Pending(afterCR, buf + Flatten(chunks))
    decreases |chunks|, if ended then 0 else 1, |buf|, 1
  {
    if |buf| > 0 || ended {
      var r := SplitStepFixed(afterCR, buf, ended);
      SplitStepFixedPending(afterCR, buf, ended, Flatten(chunks));
      var left := buf[r.advance..];
      if r.token.Some? {
        ScanFixedIsPending(r.afterCR, left, chunks, ended, eofWithLast);
      } else if ended {
        assert left == [];
      } else {
        ReadMoreFixed(r.afterCR, left, chunks, eofWithLast);
      }
    } else {
      ReadMoreFixed(afterCR, buf, chunks, eofWithLast);
    }
  }

  lemma {:induction false} ReadMoreFixed(afterCR: bool, buf: seq<byte>, chunks: seq<seq<byte>>, eofWithLast: bool)
    ensures ReadMore(true, afterCR, buf, chunks, eofWithLast) == Pending(afterCR, buf + Flatten(chunks))
    decreases |chunks|, 1, 0, 0
  {
    if chunks == [] {
      ScanFixedIsPending(afterCR, buf, [], true, eofWithLast);
    } else if chunks[0] == [] && !(eofWithLast && |chunks| == 1) {
      ReadMoreFixed(afterCR, buf, chunks[1..], eofWithLast);
      assert Flatten(chunks) == chunks[0] + Flatten(chunks[1..]) == Flatten(chunks[1..]);
    } else {
      ScanFixedIsPending(afterCR, buf + chunks[0], chunks[1..], eofWithLast && |chunks| == 1, eofWithLast);
      assert buf + chunks[0] + Flatten(chunks[1..]) == buf + Flatten(chunks);
    }
  }

  lemma FixedScanIsLines(reader: Reader)
    ensures ScanFrom(true, false, [], reader.chunks, false, reader.eofWithLast) == Lines(Flatten(reader.chunks))
  {
    ReadMoreFixed(false, [], reader.chunks, reader.eofWithLast);
    assert [] + Flatten(reader.chunks) == Flatten(reader.chunks);
  }

  /** bufio.Scanner driving a LineSplitter over a reader, as far as LineFilter
      uses it: Scan yields the next token, Err reports a read error. Buffer size
      limits are not part of this model. */
  class Scanner {
    var chunks: seq<seq<byte>>
    var buf: seq<byte>
    var ended: bool
    var done: bool
    const splitter: LineSplitter
    const eofWithLast: bool
    const fails: bool
    // every token this scanner produces, those produced so far, and those still to come
    ghost const All: seq<seq<byte>>
    ghost var Tokens: seq<seq<byte>>
    ghost var Rest: seq<seq<byte>>

    ghost predicate Valid()
      reads this, splitter
    {
      && (ended ==> chunks == [])
      && (done ==> ended && Rest == [])
      && (!done ==> Rest == ScanFrom(false, splitter.afterCR, buf, chunks, ended, eofWithLast))
      && Tokens + Rest == All
    }

    constructor (reader: Reader)
      ensures Valid() && fresh(splitter)
      ensures All == ScanAll(reader) && Tokens == []
      ensures fails == reader.fails
    {
      chunks, buf, ended, done := reader.chunks, [], false, false;
      eofWithLast, fails := reader.eofWithLast, reader.fails;
      splitter := new LineSplitter();
      All := ScanAll(reader);
      Rest := All;
      Tokens := [];
    }

    method Scan() returns (ok: bool, token: seq<byte>)
      requires Valid()
      modifies this, splitter
      ensures Valid()
      ensures ok ==> Tokens == old(Tokens) + [token]
      ensures !ok ==> Tokens == old(Tokens) == All && done
    {
      if done {
        return false, [];
      }
      while true
        invariant Valid() && !done && Tokens == old(Tokens)
        decreases |chunks|, if ended then 0 else 1
      {
        if |buf| > 0 || ended {
          ghost var rest := Rest;
          ok, token := TrySplit();
          if ok {
            Tokens := Tokens + [token];
            assert Tokens + Rest == old(Tokens) + rest;
            return;
          }
          if ended {
            done := true;
            buf := [];
            return false, [];
          }
        }
        Fill();
      }
    }

    /** Offers the buffered data to the split function and drops what it consumes. */
    method TrySplit() returns (ok: bool, token: seq<byte>)
      requires |buf| > 0 || ended
      requires ended ==> chunks == []
      requires Rest == ScanFrom(false, splitter.afterCR, buf, chunks, ended, eofWithLast)
      modifies this`buf, this`Rest, splitter
      ensures ok ==> old(Rest) == [token] + Rest
      ensures ok ==> Rest == ScanFrom(false, splitter.afterCR, buf, chunks, ended, eofWithLast)
      ensures !ok && !ended ==> old(Rest) == Rest == ReadMore(false, splitter.afterCR, buf, chunks, eofWithLast)
      ensures !ok && ended ==> old(Rest) == Rest == []
    {
      ghost var before := splitter.afterCR;
      var advance, tok := splitter.Split(buf, ended);
      ScanFromSplit(before, buf, chunks, ended, eofWithLast);
      buf := buf[advance..];
      ok := tok.Some?;
      token := if ok then tok.value else [];
      if ok {
        Rest := ScanFrom(false, splitter.afterCR, buf, chunks, ended, eofWithLast);
      }
    }

    /** One Read: the next non-empty chunk joins the buffer, or the end of input
      is noticed. Reads that return no data and no error are repeated. */
    method Fill()
      requires !ended
      requires Rest == ReadMore(false, splitter.afterCR, buf, chunks, eofWithLast)
      modifies this`buf, this`chunks, this`ended
      ensures ended ==> chunks == []
      ensures Rest == ScanFrom(false, splitter.afterCR, buf, chunks, ended, eofWithLast)
      ensures |chunks| < old(|chunks|) || (ended && chunks == old(chunks))
    {
      while chunks != [] && chunks[0] == [] && !(eofWithLast && |chunks| == 1)
        invariant Rest == ReadMore(false, splitter.afterCR, buf, chunks, eofWithLast)
        invariant |chunks| <= old(|chunks|)
        decreases |chunks|
      {
        chunks := chunks[1..];
      }
      if chunks == [] {
        ended := true;
      } else {
        buf := buf + chunks[0];
        ended := eofWithLast && |chunks| == 1;
        chunks := chunks[1..];
      }
    }

    /** A read error that ended the input, if any (io.EOF is not an error). */
    method Err() returns (failed: bool)
      requires Valid()
      ensures failed == (ended && fails)
    {
      failed := ended && fails;
    }
  }

  datatype FilterError = WriteFailed | ReadFailed

  /** What LineFilter writes for the given lines: filter(line + "\n") for each
      line, in order, leaving out empty results. */
  function Outputs(lines: seq<seq<byte>>, filter: seq<byte> -> seq<byte>): seq<seq<byte>>
  {
    if lines == [] then []
    else
      var first := filter(lines[0] + [LF]);
      (if |first| > 0 then [first] else []) + Outputs(lines[1..], filter)
  }

  lemma {:induction false} OutputsAppend(lines: seq<seq<byte>>, more: seq<seq<byte>>, filter: seq<byte> -> seq<byte>)
    ensures Outputs(lines + more, filter) == Outputs(lines, filter) + Outputs(more, filter)
  {
    if lines == [] {
      assert lines + more == more;
    } else {
      OutputsAppend(lines[1..], more, filter);
      OutputsHead(lines, more, filter);
    }
  }

  /** One step of OutputsAppend: the first line's output goes in front of both sides. */
  lemma OutputsHead(lines: seq<seq<byte>>, more: seq<seq<byte>>, filter: seq<byte> -> seq<byte>)
    requires lines != []
    requires Outputs(lines[1..] + more, filter) == Outputs(lines[1..], filter) + Outputs(more, filter)
    ensures Outputs(lines + more, filter) == Outputs(lines, filter) + Outputs(more, filter)
  {
    var first := filter(lines[0] + [LF]);
    var head := if |first| > 0 then [first] else [];
    assert (lines + more)[0] == lines[0];
    assert (lines + more)[1..] == lines[1..] + more;
    var rest, tail := Outputs(lines[1..], filter), Outputs(more, filter);
    assert head + (rest + tail) == (head + rest) + tail;
  }

  lemma OutputsSnoc(lines: seq<seq<byte>>, line: seq<byte>, filter: seq<byte> -> seq<byte>)
    ensures var last := filter(line + [LF]);
      Outputs(lines + [line], filter) == Outputs(lines, filter) + (if |last| > 0 then [last] else [])
  {
    OutputsAppend(lines, [line], filter);
    assert Outputs([line], filter) == (if |filter(line + [LF])| > 0 then [filter(line + [LF])] else []) + Outputs([], filter);
  }

  lemma OutputsPrefix(lines: seq<seq<byte>>, more: seq<seq<byte>>, filter: seq<byte> -> seq<byte>)
    ensures var a, b := Outputs(lines, filter), Outputs(lines + more, filter);
      |a| <= |b| && a == b[..|a|]
  {
    OutputsAppend(lines, more, filter);
  }

  /** LineFilter: scans the reader into lines and writes filter(line + "\n")
      for each line whose result is not empty. The writer fails on its write
      number failingWrite (counting from 0), if that is Some; LineFilter stops at
      that write, and otherwise reports a read error that ended the input. */
  method LineFilter(reader: Reader, filter: seq<byte> -> seq<byte>, failingWrite: Option<nat>)
    returns (writes: seq<seq<byte>>, err: Option<FilterError>)
    ensures var outs := Outputs(ScanAll(reader), filter);
      if failingWrite.Some? && failingWrite.value < |outs| then
        writes == outs[..failingWrite.value + 1] && err == Some(WriteFailed)
      else
        && writes == outs
        && (err == Some(ReadFailed) <==> reader.fails)
        && (err == None <==> !reader.fails)
  {
    var s := new Scanner(reader);
    writes := [];
    while true
      invariant s.Valid() && fresh(s) && fresh(s.splitter)
      invariant s.All == ScanAll(reader) && s.fails == reader.fails
      invariant writes == Outputs(s.Tokens, filter)
      invariant failingWrite.Some? ==> |writes| <= failingWrite.value
      decreases |s.All| - |s.Tokens|
    {
      ghost var before := s.Tokens;
      var ok, line := s.Scan();
      if !ok {
        break;
      }
      var filtered := filter(line + [LF]);
      OutputsSnoc(before, line, filter);
      assert Outputs(s.Tokens, filter) == writes + (if |filtered| > 0 then [filtered] else []);
      if |filtered| > 0 {
        var failed := failingWrite == Some(|writes|);
        writes := writes + [filtered];
        if failed {
          OutputsPrefix(s.Tokens, s.Rest, filter);
          assert s.Tokens + s.Rest == ScanAll(reader);
          return writes, Some(WriteFailed);
        }
      }
    }
    assert s.Tokens == ScanAll(reader);
    var readFailed := s.Err();
    if readFailed {
      return writes, Some(ReadFailed);
    }
    return writes, None;
  }
}
