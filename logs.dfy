/** The scope-interleaving log writer of logs/logs.go. Several scopes write
    lines to one target; every line is decorated with a prefix naming its
    scope, and a half-written line that another scope interrupts is closed
    with a suffix and a newline. Go strings are byte sequences here, and the
    target is an append-only byte sequence that accepts every write. */
module Logs {
  import opened Wrappers
  import opened Seqs

  type Bytes = seq<byte>

  /** The writer's newline byte, '\n'. */
  const NEWLINE: byte := 10
  /** "…" in UTF-8. */
  const ELLIPSIS: Bytes := [0xE2, 0x80, 0xA6]
  const SPACE: Bytes := [0x20]
  const OPEN_BRACKET: byte := 0x5B
  const CLOSE_BRACKET: byte := 0x5D
  const COLON: byte := 0x3A

  /** Line positions: at the start of a line, in its middle, or at its end
      with the newline not yet written. */
  const START: int := 0
  const MIDDLE: int := 1
  const END: int := 2

  /** What a decorator learns about the line it decorates. */
  datatype LineContext = LineContext(
    scope: Bytes,
    // this line interrupts a previous line, of interruptedScope
    interrupting: bool,
    interruptedScope: Bytes,
    // this line is interrupted by the next one, of interruptingScope
    interrupted: bool,
    interruptingScope: Bytes)

  /** Go's zero LineContext. */
  const ZeroContext := LineContext([], false, [], false, [])

  /** A fresh line of `scope`. */
  function LineOf(scope: Bytes): LineContext
  {
    LineContext(scope, false, [], false, [])
  }

  // ---------------------------------------------------------------------
  // The default decorator

  /** The name of a subsystem: the name itself under the root scope "",
      else "scope:name". */
  function SubsystemName(scope: Bytes, name: Bytes): (r: Bytes)
    ensures |name| <= |r| && r[|r| - |name|..] == name
    ensures scope == [] ==> r == name
    ensures scope != [] ==> |r| == |scope| + 1 + |name| && r[..|scope|] == scope && r[|scope|] == COLON
  {
    if scope == [] then name else scope + [COLON] + name
  }

  /** Under one scope, different names give different subsystems. */
  lemma SubsystemNameInjective(scope: Bytes, a: Bytes, b: Bytes)
    requires SubsystemName(scope, a) == SubsystemName(scope, b)
    ensures a == b
  {
    var r := SubsystemName(scope, a);
    if scope != [] {
      assert a == r[|scope| + 1..] == b;
    }
  }

  /** "[" + scope + marker + "]" */
  function Bracketed(scope: Bytes, marker: Bytes): Bytes
  {
    [OPEN_BRACKET] + scope + marker + [CLOSE_BRACKET]
  }

  /** The prefix of a line: nothing for the root scope "", else the
      bracketed scope followed by "…" when the scope's previous line was
      interrupted and by a space otherwise. */
  function LinePrefixOf(marker: Bytes, interrupted: set<Bytes>, context: LineContext): (prefix: Bytes)
    ensures prefix == [] <==> context.scope == []
    ensures prefix != [] ==> prefix[0] == OPEN_BRACKET && NEWLINE !in prefix[|prefix| - 1..]
  {
    if context.scope == [] then []
    else Bracketed(context.scope, marker) + (if context.scope in interrupted then ELLIPSIS else SPACE)
  }

  /** The interrupted marks after a prefix: the line's scope is unmarked. */
  function MarksAfterPrefix(interrupted: set<Bytes>, context: LineContext): set<Bytes>
  {
    if context.scope == [] then interrupted else interrupted - {context.scope}
  }

  /** The suffix of a line: "…" when the line is interrupted and its scope is
      not the root scope, else nothing. */
  function LineSuffixOf(context: LineContext): (suffix: Bytes)
    ensures suffix == ELLIPSIS || suffix == []
    ensures suffix == ELLIPSIS <==> context.scope != [] && context.interrupted
  {
    if context.scope == [] then [] else if context.interrupted then ELLIPSIS else []
  }

  /** The interrupted marks after a suffix: an interrupted line marks its scope. */
  function MarksAfterSuffix(interrupted: set<Bytes>, context: LineContext): set<Bytes>
  {
    if context.scope != [] && context.interrupted then interrupted + {context.scope} else interrupted
  }

  /** A scope whose line was interrupted resumes with a prefix ending in "…",
      and only once: the mark is gone afterwards. */
  lemma InterruptedLineResumes(marker: Bytes, interrupted: set<Bytes>, line: LineContext, next: LineContext)
    requires line.scope != [] && line.interrupted && next.scope == line.scope
    ensures var marks := MarksAfterSuffix(interrupted, line);
      var prefix := LinePrefixOf(marker, marks, next);
      && prefix == Bracketed(line.scope, marker) + ELLIPSIS
      && MarksAfterPrefix(marks, next) == interrupted - {line.scope}
      && LinePrefixOf(marker, MarksAfterPrefix(marks, next), next) == Bracketed(line.scope, marker) + SPACE
  {
  }

  /** defaultDecorator. The interrupted map is shared by every copy of the Go
      value, so it is one mutable set here. */
  class DefaultDecorator {
    const marker: Bytes
    var interrupted: set<Bytes>

    /** NewDefaultDecorator */
    constructor (marker: Bytes)
      ensures this.marker == marker && interrupted == {}
    {
      this.marker := marker;
      interrupted := {};
    }

    /** Subsystem */
    static function Subsystem(scope: Bytes, name: Bytes): (r: Bytes)
      ensures r == SubsystemName(scope, name)
    {
      SubsystemName(scope, name)
    }

    /** LinePrefix: also clears the scope's interrupted mark. */
    method LinePrefix(context: LineContext) returns (prefix: Bytes)
      modifies this
      ensures prefix == LinePrefixOf(marker, old(interrupted), context)
      ensures interrupted == MarksAfterPrefix(old(interrupted), context)
    {
      if context.scope == [] {
        return [];
      }
      prefix := Bracketed(context.scope, marker);
      if context.scope in interrupted {
        interrupted := interrupted - {context.scope};
        prefix := prefix + ELLIPSIS;
      } else {
        prefix := prefix + SPACE;
      }
    }

    /** LineSuffix: an interrupted line also marks its scope. */
    method LineSuffix(context: LineContext) returns (suffix: Bytes)
      modifies this
      ensures suffix == LineSuffixOf(context)
      ensures interrupted == MarksAfterSuffix(old(interrupted), context)
    {
      if context.scope == [] {
        return [];
      }
      if context.interrupted {
        interrupted := interrupted + {context.scope};
        return ELLIPSIS;
      } else {
        return [];
      }
    }
  }

  // ---------------------------------------------------------------------
  // What one WriteScope call emits

  /** One piece of the emitted output: a content byte of the write, a line
      prefix, a line suffix, or a newline inserted to end an interrupted line. */
  datatype Piece = Content(content: byte) | Prefix(prefix: Bytes) | Suffix(suffix: Bytes) | Break

  function PieceBytes(piece: Piece): Bytes
  {
    match piece
    case Content(c) => [c]
    case Prefix(p) => p
    case Suffix(s) => s
    case Break => [NEWLINE]
  }

  /** The bytes the pieces put on the target. */
  function Flatten(pieces: seq<Piece>): Bytes
  {
    if pieces == [] then [] else Flatten(pieces[..|pieces| - 1]) + PieceBytes(pieces[|pieces| - 1])
  }

  /** The content bytes among the pieces. */
  function ContentOf(pieces: seq<Piece>): Bytes
  {
    if pieces == [] then []
    else
      var last := pieces[|pieces| - 1];
      ContentOf(pieces[..|pieces| - 1]) + (if last.Content? then [last.content] else [])
  }

  lemma {:induction false} FlattenConcat(a: seq<Piece>, b: seq<Piece>)
    ensures Flatten(a + b) == Flatten(a) + Flatten(b)
  {
    if b != [] {
      var init := b[..|b| - 1];
      var last := b[|b| - 1];
      assert (a + b)[..|a + b| - 1] == a + init;
      assert (a + b)[|a + b| - 1] == last;
      calc {
        Flatten(a + b);
        Flatten(a + init) + PieceBytes(last);
        { FlattenConcat(a, init); }
        (Flatten(a) + Flatten(init)) + PieceBytes(last);
        { Assoc(Flatten(a), Flatten(init), PieceBytes(last)); }
        Flatten(a) + Flatten(b);
      }
    } else {
      assert a + b == a;
    }
  }

  lemma {:induction false} ContentConcat(a: seq<Piece>, b: seq<Piece>)
    ensures ContentOf(a + b) == ContentOf(a) + ContentOf(b)
  {
    if b != [] {
      var init := b[..|b| - 1];
      var last := b[|b| - 1];
      var tail: Bytes := if last.Content? then [last.content] else [];
      assert ContentOf(b) == ContentOf(init) + tail;
      assert (a + b)[..|a + b| - 1] == a + init;
      assert (a + b)[|a + b| - 1] == last;
      assert ContentOf(a + b) == ContentOf(a + init) + tail;
      calc {
        ContentOf(a + b);
        ContentOf(a + init) + tail;
        { ContentConcat(a, init); }
        (ContentOf(a) + ContentOf(init)) + tail;
        { Assoc(ContentOf(a), ContentOf(init), tail); }
        ContentOf(a) + ContentOf(b);
      }
    } else {
      assert a + b == a;
    }
  }

  /** Pieces that are all decoration hold no content. */
  lemma {:induction false} NoContent(pieces: seq<Piece>)
    requires forall i :: 0 <= i < |pieces| ==> !pieces[i].Content?
    ensures ContentOf(pieces) == []
  {
    if pieces != [] {
      NoContent(pieces[..|pieces| - 1]);
    }
  }

  /** The writer's line state: the context and position of the current line
      and the decorator's interrupted marks. */
  datatype Line = Line(context: LineContext, position: int, interrupted: set<Bytes>)

  /** Pieces emitted and the line state reached. */
  datatype Trace = Trace(pieces: seq<Piece>, line: Line)

  /** Writing under a scope other than that of an unfinished line: the line
      is marked interrupted by `scope`, and a line left in the middle is
      ended, with its suffix. */
  function Interrupt(st: Line, scope: Bytes): (t: Trace)
    ensures t.pieces == [] || t.pieces == [Suffix(ELLIPSIS)]
    ensures t.line.context.scope == st.context.scope
    ensures t.line.position == (if st.position == MIDDLE && st.context.scope != scope then END else st.position)
    ensures st.context.scope != scope && st.position != START ==> t.line.context.interrupted
    ensures t.pieces != [] <==> st.position == MIDDLE && st.context.scope != scope && st.context.scope != []
    ensures t.line.interrupted ==
      if st.position == MIDDLE && st.context.scope != scope && st.context.scope != []
      then st.interrupted + {st.context.scope} else st.interrupted
  {
    if st.context.scope != scope && st.position != START then
      var context := st.context.(interrupted := true, interruptingScope := scope);
      if st.position == MIDDLE then
        var suffix := LineSuffixOf(context);
        Trace(if suffix != [] then [Suffix(suffix)] else [], Line(context, END, MarksAfterSuffix(st.interrupted, context)))
      else
        Trace([], Line(context, st.position, st.interrupted))
    else
      Trace([], st)
  }

  /** The current line becomes `scope`'s: an ended line first gets its
      newline, and the new line records whether it interrupts the old one. */
  function Begin(line: Line, scope: Bytes): (t: Trace)
    ensures t.line.context.scope == scope && !t.line.context.interrupted
    ensures t.line.interrupted == line.interrupted
    ensures t.pieces == (if line.position == END then [Break] else [])
    ensures t.line.position == (if line.position == END then START else line.position)
    ensures line.position == END ==>
      t.line.context.interrupting == line.context.interrupted && t.line.context.interruptedScope == line.context.scope
  {
    var context := line.context;
    if line.position == END then
      Trace([Break], Line(LineContext(scope, context.interrupted, context.scope, false, []), START, line.interrupted))
    else
      Trace([], Line(LineContext(scope, context.interrupting, context.interruptedScope, false, []), line.position, line.interrupted))
  }

  /** The start of WriteScope, before any content byte: an unfinished line of
      another scope is interrupted, an ended line gets its newline, and the
      current line then belongs to `scope`. */
  function Open(st: Line, scope: Bytes): (t: Trace)
    ensures t.line.context.scope == scope && !t.line.context.interrupted
    ensures t.line.position == START || t.line.position == MIDDLE || t.line.position == st.position
    ensures t.pieces == [] || t.pieces == [Break] || t.pieces == [Suffix(ELLIPSIS), Break]
    ensures t.pieces != [] <==> st.position == END || (st.position == MIDDLE && st.context.scope != scope)
    ensures t.pieces != [] ==> t.line.position == START
    ensures st.position == MIDDLE && st.context.scope != scope ==>
      && t.pieces == (if st.context.scope != [] then [Suffix(ELLIPSIS)] else []) + [Break]
      && t.line.interrupted == (if st.context.scope != [] then st.interrupted + {st.context.scope} else st.interrupted)
      && t.line.context.interrupting && t.line.context.interruptedScope == st.context.scope
    ensures st.position != MIDDLE || st.context.scope == scope ==> t.line.interrupted == st.interrupted
  {
    var closed := Interrupt(st, scope);
    var begun := Begin(closed.line, scope);
    Trace(closed.pieces + begun.pieces, begun.line)
  }

  /** A content byte at a line start: the line's prefix comes first, and the
      line is in its middle from then on. */
  function PrefixStep(marker: Bytes, line: Line): (t: Trace)
    ensures t.line.context == line.context
    ensures t.line.position == (if line.position == START then MIDDLE else line.position)
    ensures t.pieces == [] || (line.position == START && line.context.scope != [] &&
      t.pieces == [Prefix(LinePrefixOf(marker, line.interrupted, line.context))])
  {
    if line.position == START then
      var prefix := LinePrefixOf(marker, line.interrupted, line.context);
      Trace(if prefix != [] then [Prefix(prefix)] else [], Line(line.context, MIDDLE, MarksAfterPrefix(line.interrupted, line.context)))
    else
      Trace([], line)
  }

  /** A newline content byte: the line's suffix comes before it, and a fresh
      line of `scope` starts. */
  function NewlineStep(scope: Bytes, line: Line, c: byte): (t: Trace)
    ensures c != NEWLINE ==> t == Trace([], line)
    ensures c == NEWLINE ==> t.line.context == LineOf(scope) && t.line.position == START
    ensures !line.context.interrupted ==> t.pieces == [] && t.line.interrupted == line.interrupted
  {
    if c == NEWLINE then
      var suffix := LineSuffixOf(line.context);
      Trace(if suffix != [] then [Suffix(suffix)] else [], Line(LineOf(scope), START, MarksAfterSuffix(line.interrupted, line.context)))
    else
      Trace([], line)
  }

  /** One content byte of the loop: its prefix, its suffix, the byte. */
  function WriteByteStep(marker: Bytes, scope: Bytes, line: Line, c: byte): Trace
  {
    var prefixed := PrefixStep(marker, line);
    var closed := NewlineStep(scope, prefixed.line, c);
    Trace(prefixed.pieces + closed.pieces + [Content(c)], closed.line)
  }

  /** The content bytes b written one after the other from trace t. */
  function Run(marker: Bytes, scope: Bytes, t: Trace, b: Bytes): Trace
  {
    if b == [] then t
    else
      var prev := Run(marker, scope, t, b[..|b| - 1]);
      var step := WriteByteStep(marker, scope, prev.line, b[|b| - 1]);
      Trace(prev.pieces + step.pieces, step.line)
  }

  /** Everything one WriteScope call emits, and the line state it leaves. */
  function WriteTrace(marker: Bytes, st: Line, scope: Bytes, b: Bytes): Trace
  {
    Run(marker, scope, Open(st, scope), b)
  }

  /** A line state of `scope` inside the byte loop. */
  predicate InLoop(scope: Bytes, t: Trace)
  {
    && t.line.context.scope == scope && !t.line.context.interrupted
    && (t.line.position == START || t.line.position == MIDDLE)
    && (t.line.position == START ==>
          t.pieces == [] || t.pieces[|t.pieces| - 1] == Break || t.pieces[|t.pieces| - 1] == Content(NEWLINE))
  }

  /** A piece the byte loop may emit: no suffix (lines in the loop are never
      interrupted) and no inserted newline; a prefix only at a line start. */
  predicate LoopPiece(pieces: seq<Piece>, i: int)
    requires 0 <= i < |pieces|
  {
    && (pieces[i].Content? || pieces[i].Prefix?)
    && (pieces[i].Prefix? ==>
          && pieces[i].prefix != [] && pieces[i].prefix[0] == OPEN_BRACKET
          && (i == 0 || pieces[i - 1] == Break || pieces[i - 1] == Content(NEWLINE)))
  }

  /** One content byte in the loop: at most a prefix, at a line start, and
      then the byte itself; the line stays `scope`'s and uninterrupted, and
      is at a line start afterwards exactly after a newline. */
  lemma StepShape(marker: Bytes, scope: Bytes, line: Line, c: byte)
    requires line.context.scope == scope && !line.context.interrupted
    requires line.position == START || line.position == MIDDLE
    ensures var step := WriteByteStep(marker, scope, line, c);
      && step.line.context.scope == scope && !step.line.context.interrupted
      && (step.line.position == START || step.line.position == MIDDLE)
      && (step.line.position == START <==> c == NEWLINE)
      && (step.pieces == [Content(c)] ||
          (line.position == START && |step.pieces| == 2 && step.pieces[1] == Content(c) && step.pieces[0].Prefix? &&
           step.pieces[0].prefix != [] && step.pieces[0].prefix[0] == OPEN_BRACKET))
      && (step.line.interrupted == line.interrupted || step.line.interrupted == line.interrupted - {scope})
  {
    var prefixed := PrefixStep(marker, line);
    var closed := NewlineStep(scope, prefixed.line, c);
    assert prefixed.pieces + closed.pieces == prefixed.pieces;
  }

  /** The loop's next trace: the previous one extended by one byte's step. */
  lemma RunNext(marker: Bytes, scope: Bytes, o: Trace, b: Bytes, i: int)
    requires 0 <= i < |b|
    ensures var prev := Run(marker, scope, o, b[..i]);
      var step := WriteByteStep(marker, scope, prev.line, b[i]);
      Run(marker, scope, o, b[..i + 1]) == Trace(prev.pieces + step.pieces, step.line)
  {
    assert b[..i + 1][..i] == b[..i] && b[..i + 1][i] == b[i];
  }

  /** One content byte keeps a trace inside the loop, at a line start
      exactly after a newline. */
  lemma StepInLoop(marker: Bytes, scope: Bytes, prev: Trace, c: byte)
    requires InLoop(scope, prev)
    ensures var step := WriteByteStep(marker, scope, prev.line, c);
      var next := Trace(prev.pieces + step.pieces, step.line);
      && InLoop(scope, next)
      && (next.line.position == START <==> c == NEWLINE)
  {
    StepShape(marker, scope, prev.line, c);
    var step := WriteByteStep(marker, scope, prev.line, c);
    var pieces := prev.pieces + step.pieces;
    assert pieces[|pieces| - 1] == step.pieces[|step.pieces| - 1];
  }

  /** The bytes one content byte emits: its line's prefix at a line start,
      its line's suffix at a newline, then the byte. */
  lemma StepFlatten(marker: Bytes, scope: Bytes, line: Line, c: byte)
    ensures var prefixed := PrefixStep(marker, line);
      Flatten(WriteByteStep(marker, scope, line, c).pieces) ==
      Flatten(prefixed.pieces) + Flatten(NewlineStep(scope, prefixed.line, c).pieces) + [c]
  {
    var prefixed := PrefixStep(marker, line);
    var closed := NewlineStep(scope, prefixed.line, c);
    FlattenConcat(prefixed.pieces + closed.pieces, [Content(c)]);
    FlattenConcat(prefixed.pieces, closed.pieces);
    assert Flatten([Content(c)]) == [c];
  }

  /** The byte loop only appends to the pieces. */
  lemma {:induction false} RunExtends(marker: Bytes, scope: Bytes, t: Trace, b: Bytes)
    ensures var r := Run(marker, scope, t, b);
      |t.pieces| <= |r.pieces| && r.pieces[..|t.pieces|] == t.pieces
  {
    if b != [] {
      RunExtends(marker, scope, t, b[..|b| - 1]);
    }
  }

  /** One content byte in the loop emits that byte as content. */
  lemma StepContent(marker: Bytes, scope: Bytes, line: Line, c: byte)
    requires line.context.scope == scope && !line.context.interrupted
    requires line.position == START || line.position == MIDDLE
    ensures ContentOf(WriteByteStep(marker, scope, line, c).pieces) == [c]
  {
    StepShape(marker, scope, line, c);
    var step := WriteByteStep(marker, scope, line, c);
    var front := step.pieces[..|step.pieces| - 1];
    assert step.pieces == front + [Content(c)];
    ContentConcat(front, [Content(c)]);
    assert ContentOf([Content(c)]) == [c];
    NoContent(front);
  }

  /** The byte loop appends b as content. */
  lemma {:induction false} RunContent(marker: Bytes, scope: Bytes, t: Trace, b: Bytes)
    requires InLoop(scope, t)
    ensures ContentOf(Run(marker, scope, t, b).pieces) == ContentOf(t.pieces) + b
  {
    if b != [] {
      var prev := Run(marker, scope, t, b[..|b| - 1]);
      RunContent(marker, scope, t, b[..|b| - 1]);
      RunState(marker, scope, t, b[..|b| - 1]);
      var c := b[|b| - 1];
      StepShape(marker, scope, prev.line, c);
      var step := WriteByteStep(marker, scope, prev.line, c);
      ContentConcat(prev.pieces, step.pieces);
      StepContent(marker, scope, prev.line, c);
      Snoc(b);
      Assoc(ContentOf(t.pieces), b[..|b| - 1], [c]);
    }
  }

  /** The byte loop keeps its line state, unmarks nothing but `scope`, ends
      on the last content byte, and ends at a line start exactly after a
      newline. */
  lemma {:induction false} RunState(marker: Bytes, scope: Bytes, t: Trace, b: Bytes)
    requires InLoop(scope, t)
    ensures var r := Run(marker, scope, t, b);
      && InLoop(scope, r)
      && (r.line.interrupted == t.line.interrupted || r.line.interrupted == t.line.interrupted - {scope})
      && (b != [] ==> r.pieces[|r.pieces| - 1] == Content(b[|b| - 1]))
      && (b != [] ==> (r.line.position == START <==> b[|b| - 1] == NEWLINE))
  {
    if b != [] {
      var prev := Run(marker, scope, t, b[..|b| - 1]);
      RunState(marker, scope, t, b[..|b| - 1]);
      StepShape(marker, scope, prev.line, b[|b| - 1]);
    }
  }

  /** The byte loop emits only loop pieces. */
  lemma {:induction false} RunPieces(marker: Bytes, scope: Bytes, t: Trace, b: Bytes)
    requires InLoop(scope, t)
    ensures var r := Run(marker, scope, t, b);
      forall i :: |t.pieces| <= i < |r.pieces| ==> LoopPiece(r.pieces, i)
  {
    if b != [] {
      var prev := Run(marker, scope, t, b[..|b| - 1]);
      RunPieces(marker, scope, t, b[..|b| - 1]);
      RunState(marker, scope, t, b[..|b| - 1]);
      RunExtends(marker, scope, t, b[..|b| - 1]);
      var c := b[|b| - 1];
      StepShape(marker, scope, prev.line, c);
      var step := WriteByteStep(marker, scope, prev.line, c);
      var r := Trace(prev.pieces + step.pieces, step.line);
      assert r == Run(marker, scope, t, b);
      forall i | |t.pieces| <= i < |r.pieces|
        ensures LoopPiece(r.pieces, i)
      {
        if i < |prev.pieces| {
          assert LoopPiece(prev.pieces, i);
          assert r.pieces[i] == prev.pieces[i];
          assert i > 0 ==> r.pieces[i - 1] == prev.pieces[i - 1];
        } else if r.pieces[i].Prefix? {
          assert i == |prev.pieces|;
        }
      }
    }
  }

  /** WriteScope's output holds the content bytes of b, in order. */
  lemma WriteScopeContent(marker: Bytes, st: Line, scope: Bytes, b: Bytes)
    requires START <= st.position <= END
    ensures ContentOf(WriteTrace(marker, st, scope, b).pieces) == b
  {
    var o := Open(st, scope);
    OpenInLoop(st, scope);
    RunContent(marker, scope, o, b);
    OpenNoContent(st, scope);
  }

  /** The loop starts from the state the interrupt check and the position
      switch leave. */
  lemma OpenInLoop(st: Line, scope: Bytes)
    requires START <= st.position <= END
    ensures InLoop(scope, Open(st, scope))
  {
    var t := Open(st, scope);
    assert t.pieces == [] || t.pieces == [Break] || t.pieces == [Suffix(ELLIPSIS), Break];
    assert t.pieces != [] ==> t.line.position == START && t.pieces[|t.pieces| - 1] == Break;
  }

  /** The interrupt check and the position switch write no content. */
  lemma OpenNoContent(st: Line, scope: Bytes)
    ensures ContentOf(Open(st, scope).pieces) == []
  {
    var t := Open(st, scope);
    assert t.pieces == [] || t.pieces == [Break] || t.pieces == [Suffix(ELLIPSIS), Break];
    NoContent(t.pieces);
  }

  /** A piece in its place in the output of WriteScope: an inserted newline
      only first or second, a suffix ("…") only first, a prefix only at a
      line start. */
  predicate WellPlaced(pieces: seq<Piece>, i: int)
    requires 0 <= i < |pieces|
  {
    && (pieces[i].Break? ==> i <= 1)
    && (pieces[i].Suffix? ==> i == 0 && pieces[i].suffix == ELLIPSIS)
    && (pieces[i].Prefix? ==>
          && pieces[i].prefix != [] && pieces[i].prefix[0] == OPEN_BRACKET
          && (i == 0 || pieces[i - 1] == Break || pieces[i - 1] == Content(NEWLINE)))
  }

  /** WriteScope's output: besides content, only line prefixes, each at a
      line start, and at most one suffix and one inserted newline, both at
      the very start. */
  lemma WriteScopeDecorations(marker: Bytes, st: Line, scope: Bytes, b: Bytes)
    requires START <= st.position <= END
    ensures var t := WriteTrace(marker, st, scope, b);
      forall i :: 0 <= i < |t.pieces| ==> WellPlaced(t.pieces, i)
  {
    var o := Open(st, scope);
    OpenInLoop(st, scope);
    assert o.pieces == [] || o.pieces == [Break] || o.pieces == [Suffix(ELLIPSIS), Break];
    RunDecorations(marker, scope, o, b);
    assert WriteTrace(marker, st, scope, b) == Run(marker, scope, o, b);
  }

  /** The loop, from the pieces the interrupt check and the position switch
      may leave, keeps every piece well placed. */
  lemma RunDecorations(marker: Bytes, scope: Bytes, o: Trace, b: Bytes)
    requires InLoop(scope, o)
    requires o.pieces == [] || o.pieces == [Break] || o.pieces == [Suffix(ELLIPSIS), Break]
    ensures var t := Run(marker, scope, o, b);
      forall i :: 0 <= i < |t.pieces| ==> WellPlaced(t.pieces, i)
  {
    RunPieces(marker, scope, o, b);
    RunExtends(marker, scope, o, b);
    var t := Run(marker, scope, o, b);
    forall i | 0 <= i < |t.pieces|
      ensures WellPlaced(t.pieces, i)
    {
      if i < |o.pieces| {
        assert t.pieces[i] == o.pieces[i];
      } else {
        assert LoopPiece(t.pieces, i);
      }
    }
  }

  /** The last byte put on the target by pieces ending in a content byte or
      an inserted newline. */
  lemma FlattenLast(pieces: seq<Piece>)
    requires pieces != [] && (pieces[|pieces| - 1].Content? || pieces[|pieces| - 1].Break?)
    ensures var out := Flatten(pieces); var last := pieces[|pieces| - 1];
      |out| > 0 && out[|out| - 1] == (if last.Content? then last.content else NEWLINE)
  {
  }

  /** After a write, the current line belongs to the writing scope; when
      anything was emitted, the writer is at a line start exactly when the
      last byte emitted was a newline. */
  lemma WriteScopeEndsLine(marker: Bytes, st: Line, scope: Bytes, b: Bytes)
    requires START <= st.position <= END
    ensures var t := WriteTrace(marker, st, scope, b);
      && t.line.context.scope == scope
      && (t.line.position == START || t.line.position == MIDDLE)
      && (t.pieces != [] ==> var out := Flatten(t.pieces);
            |out| > 0 && (t.line.position == START <==> out[|out| - 1] == NEWLINE))
  {
    var o := Open(st, scope);
    OpenInLoop(st, scope);
    assert o.pieces != [] ==> o.pieces[|o.pieces| - 1] == Break && o.line.position == START;
    RunEndsLine(marker, scope, o, b);
    assert WriteTrace(marker, st, scope, b) == Run(marker, scope, o, b);
  }

  /** The loop, from a state at a line start after an inserted newline,
      ends at a line start exactly after a newline. */
  lemma RunEndsLine(marker: Bytes, scope: Bytes, o: Trace, b: Bytes)
    requires InLoop(scope, o)
    requires o.pieces != [] ==> o.pieces[|o.pieces| - 1] == Break && o.line.position == START
    ensures var t := Run(marker, scope, o, b);
      && t.line.context.scope == scope
      && (t.line.position == START || t.line.position == MIDDLE)
      && (t.pieces != [] ==> var out := Flatten(t.pieces);
            |out| > 0 && (t.line.position == START <==> out[|out| - 1] == NEWLINE))
  {
    var t := Run(marker, scope, o, b);
    RunState(marker, scope, o, b);
    if b == [] {
      if t.pieces != [] {
        FlattenLast(t.pieces);
      }
    } else {
      FlattenLast(t.pieces);
    }
  }

  /** A write emits nothing only when it is empty and neither interrupts nor
      ends a line. */
  lemma WriteScopeSilent(marker: Bytes, st: Line, scope: Bytes, b: Bytes)
    requires START <= st.position <= END
    ensures WriteTrace(marker, st, scope, b).pieces == [] <==> b == [] && Open(st, scope).pieces == []
  {
    var o := Open(st, scope);
    OpenInLoop(st, scope);
    RunState(marker, scope, o, b);
    RunExtends(marker, scope, o, b);
  }

  /** Writing under another scope while a line is half written closes that
      line: its suffix ("…" unless it is the root scope's), then a newline,
      before any new content; the interrupted scope stays marked for its
      next prefix. */
  lemma InterruptingWrite(marker: Bytes, st: Line, scope: Bytes, b: Bytes)
    requires st.position == MIDDLE && st.context.scope != scope
    ensures var t := WriteTrace(marker, st, scope, b);
      var closing := (if st.context.scope != [] then [Suffix(ELLIPSIS)] else []) + [Break];
      && |closing| <= |t.pieces| && t.pieces[..|closing|] == closing
      && (st.context.scope != [] ==> st.context.scope in t.line.interrupted)
  {
    var o := Open(st, scope);
    RunState(marker, scope, o, b);
    RunExtends(marker, scope, o, b);
  }

  // ---------------------------------------------------------------------
  // The writers

  /** rootLogWriter. `output` is everything written to the target. The mutex
      only makes calls sequential, which method calls are. */
  class RootLogWriter {
    const scope: Bytes
    const decorator: DefaultDecorator
    var context: LineContext
    var position: int
    var output: Bytes

    ghost predicate Valid()
      reads this
    {
      START <= position <= END
    }

    /** NewDecorated, on a target nothing was written to yet. */
    constructor (name: Bytes, decorator: DefaultDecorator)
      ensures Valid() && this.scope == name && this.decorator == decorator
      ensures context == ZeroContext && position == START && output == []
    {
      scope := name;
      this.decorator := decorator;
      context := ZeroContext;
      position := START;
      output := [];
    }

    /** GetScope */
    function GetScope(scope: Bytes, name: Bytes): (r: Bytes)
      ensures r == SubsystemName(scope, name)
    {
      DefaultDecorator.Subsystem(scope, name)
    }

    /** Subsystem: a writer for the subsystem `name` of this writer's scope. */
    method Subsystem(name: Bytes) returns (w: SubsystemLogWriter)
      ensures fresh(w) && w.root == this && w.scope == SubsystemName(this.scope, name)
    {
      w := new SubsystemLogWriter(this, GetScope(this.scope, name));
    }

    /** A write to the target, which always fully succeeds, after which the
        line state reached is recorded. */
    method Emit(bytes: Bytes, lineContext: LineContext, linePosition: int)
      requires START <= linePosition <= END
      modifies this
      ensures Valid()
      ensures output == old(output) + bytes && context == lineContext && position == linePosition
    {
      output := output + bytes;
      context := lineContext;
      position := linePosition;
    }

    /** The flush closure: writes the buffered content bytes, if any; the
        writer is then at a line start exactly when the last one was a newline. */
    method Flush(buffer: Bytes, lineContext: LineContext) returns (n: int)
      requires Valid()
      modifies this
      ensures Valid()
      ensures n == |buffer|
      ensures buffer == [] ==> output == old(output) && context == old(context) && position == old(position)
      ensures buffer != [] ==>
        && output == old(output) + buffer && context == lineContext
        && position == (if buffer[|buffer| - 1] == NEWLINE then START else MIDDLE)
    {
      if |buffer| == 0 {
        return 0;
      }
      output := output + buffer;
      n := |buffer|;
      context := lineContext;
      if buffer[n - 1] == NEWLINE {
        position := START;
      } else {
        position := MIDDLE;
      }
    }

    /** The interrupt check of WriteScope. */
    method InterruptLine(scope: Bytes) returns (lineContext: LineContext, linePosition: int)
      requires Valid()
      modifies this, decorator
      ensures Valid()
      ensures var t := Interrupt(Line(old(context), old(position), old(decorator.interrupted)), scope);
        && lineContext == t.line.context && linePosition == t.line.position
        && decorator.interrupted == t.line.interrupted
        && output == old(output) + Flatten(t.pieces)
        && (t.pieces == [] ==> context == old(context) && position == old(position))
        && (t.pieces != [] ==> context == lineContext && position == linePosition)
    {
      lineContext, linePosition := context, position;
      if context.scope != scope && linePosition != START {
        lineContext := lineContext.(interrupted := true, interruptingScope := scope);
        if linePosition == MIDDLE {
          linePosition := END;
          var suffix := decorator.LineSuffix(lineContext);
          if suffix != [] {
            Emit(suffix, lineContext, linePosition);
            assert Flatten([Suffix(suffix)]) == suffix;
          }
        }
      }
    }

    /** The position switch of WriteScope. */
    method BeginLine(scope: Bytes, lineContext: LineContext, linePosition: int)
      returns (nextContext: LineContext, nextPosition: int)
      requires Valid() && START <= linePosition <= END
      modifies this
      ensures Valid()
      ensures var t := Begin(Line(lineContext, linePosition, decorator.interrupted), scope);
        && nextContext == t.line.context && nextPosition == t.line.position
        && output == old(output) + Flatten(t.pieces)
        && (t.pieces == [] ==> context == old(context) && position == old(position))
        && (t.pieces != [] ==> context == nextContext && position == nextPosition)
    {
      if linePosition == END {
        nextContext := LineContext(scope, lineContext.interrupted, lineContext.scope, false, []);
        nextPosition := START;
        Emit([NEWLINE], nextContext, nextPosition);
        assert Flatten([Break]) == [NEWLINE];
      } else {
        nextContext := LineContext(scope, lineContext.interrupting, lineContext.interruptedScope, false, []);
        nextPosition := linePosition;
      }
    }

    /** The first part of WriteScope, before any content byte. */
    method OpenLine(scope: Bytes) returns (lineContext: LineContext, linePosition: int)
      requires Valid()
      modifies this, decorator
      ensures Valid()
      ensures var t := Open(Line(old(context), old(position), old(decorator.interrupted)), scope);
        && lineContext == t.line.context && linePosition == t.line.position
        && decorator.interrupted == t.line.interrupted
        && output == old(output) + Flatten(t.pieces)
        && (t.pieces == [] ==> context == old(context) && position == old(position))
        && (t.pieces != [] ==> context == lineContext && position == linePosition)
    {
      ghost var closed := Interrupt(Line(context, position, decorator.interrupted), scope);
      lineContext, linePosition := InterruptLine(scope);
      ghost var begun := Begin(closed.line, scope);
      lineContext, linePosition := BeginLine(scope, lineContext, linePosition);
      FlattenConcat(closed.pieces, begun.pieces);
    }

    /** The line-start part of the byte loop. */
    method PrefixLine(lineContext: LineContext, linePosition: int, buffer: Bytes)
      returns (nextPosition: int, nextBuffer: Bytes, flushed: int)
      requires Valid() && START <= linePosition <= END
      modifies this, decorator
      ensures Valid()
      ensures var t := PrefixStep(decorator.marker, Line(lineContext, linePosition, old(decorator.interrupted)));
        && nextPosition == t.line.position && decorator.interrupted == t.line.interrupted
        && output + nextBuffer == old(output) + buffer + Flatten(t.pieces)
      ensures flushed + |nextBuffer| == |buffer|
    {
      nextPosition, nextBuffer, flushed := linePosition, buffer, 0;
      ghost var start := output + buffer;
      EmptyRight(start);
      if nextPosition == START {
        nextPosition := MIDDLE;
        var prefix := decorator.LinePrefix(lineContext);
        if prefix != [] {
          EmptyRight(output);
          flushed := Flush(nextBuffer, lineContext);
          assert output == start;
          nextBuffer := [];
          Emit(prefix, lineContext, nextPosition);
          EmptyRight(output);
          assert Flatten([Prefix(prefix)]) == prefix;
        }
      }
    }

    /** The newline part of the byte loop. */
    method CloseLine(scope: Bytes, c: byte, lineContext: LineContext, linePosition: int, buffer: Bytes)
      returns (nextContext: LineContext, nextPosition: int, nextBuffer: Bytes, flushed: int)
      requires Valid() && START <= linePosition <= END
      modifies this, decorator
      ensures Valid()
      ensures var t := NewlineStep(scope, Line(lineContext, linePosition, old(decorator.interrupted)), c);
        && nextContext == t.line.context && nextPosition == t.line.position
        && decorator.interrupted == t.line.interrupted
        && output + nextBuffer == old(output) + buffer + Flatten(t.pieces)
      ensures flushed + |nextBuffer| == |buffer|
    {
      nextContext, nextPosition, nextBuffer, flushed := lineContext, linePosition, buffer, 0;
      ghost var start := output + buffer;
      EmptyRight(start);
      if c == NEWLINE {
        nextPosition := END;
        var suffix := decorator.LineSuffix(nextContext);
        if suffix != [] {
          EmptyRight(output);
          flushed := Flush(nextBuffer, nextContext);
          assert output == start;
          nextBuffer := [];
          Emit(suffix, nextContext, nextPosition);
          EmptyRight(output);
          assert Flatten([Suffix(suffix)]) == suffix;
        }
        nextContext := LineOf(scope);
        nextPosition := START;
      }
    }

    /** One pass of the byte loop: the prefix at a line start, the suffix
        at a newline (each after flushing the buffer), then the byte into
        the buffer. */
    method WriteByte(scope: Bytes, c: byte, lineContext: LineContext, linePosition: int, buffer: Bytes)
      returns (nextContext: LineContext, nextPosition: int, nextBuffer: Bytes, flushed: int)
      requires Valid() && START <= linePosition <= END
      modifies this, decorator
      ensures Valid()
      ensures var step := WriteByteStep(decorator.marker, scope, Line(lineContext, linePosition, old(decorator.interrupted)), c);
        && nextContext == step.line.context && nextPosition == step.line.position
        && decorator.interrupted == step.line.interrupted
        && output + nextBuffer == old(output) + buffer + Flatten(step.pieces)
      ensures flushed + |nextBuffer| == |buffer| + 1
      ensures nextBuffer != [] && nextBuffer[|nextBuffer| - 1] == c
    {
      ghost var line := Line(lineContext, linePosition, decorator.interrupted);
      ghost var prefixed := PrefixStep(decorator.marker, line);
      ghost var start := output + buffer;
      var n1, n2;
      nextPosition, nextBuffer, n1 := PrefixLine(lineContext, linePosition, buffer);
      ghost var closed := NewlineStep(scope, prefixed.line, c);
      ghost var middle := output + nextBuffer;
      nextContext, nextPosition, nextBuffer, n2 := CloseLine(scope, c, lineContext, nextPosition, nextBuffer);
      ghost var ended := output + nextBuffer;
      nextBuffer := nextBuffer + [c];
      flushed := n1 + n2;
      StepFlatten(decorator.marker, scope, line, c);
      assert output + nextBuffer == ended + [c];
      Assoc(start, Flatten(prefixed.pieces), Flatten(closed.pieces));
      Assoc(start, Flatten(prefixed.pieces) + Flatten(closed.pieces), [c]);
    }

    /** One pass of WriteScope's byte loop, as a step of Run. */
    method WriteAt(scope: Bytes, b: Bytes, i: int, ghost start: Bytes, ghost o: Trace,
                   lineContext: LineContext, linePosition: int, buffer: Bytes)
      returns (nextContext: LineContext, nextPosition: int, nextBuffer: Bytes, flushed: int)
      requires 0 <= i < |b| && Valid()
      requires var t := Run(decorator.marker, scope, o, b[..i]);
        && lineContext == t.line.context && linePosition == t.line.position
        && decorator.interrupted == t.line.interrupted
        && output + buffer == start + Flatten(t.pieces)
        && InLoop(scope, t)
      modifies this, decorator
      ensures Valid()
      ensures var t := Run(decorator.marker, scope, o, b[..i + 1]);
        && nextContext == t.line.context && nextPosition == t.line.position
        && decorator.interrupted == t.line.interrupted
        && output + nextBuffer == start + Flatten(t.pieces)
        && InLoop(scope, t)
      ensures flushed + |nextBuffer| == |buffer| + 1
      ensures nextBuffer != [] && nextBuffer[|nextBuffer| - 1] == b[i]
      ensures nextPosition == START <==> b[i] == NEWLINE
    {
      ghost var marker := decorator.marker;
      ghost var prev := Run(marker, scope, o, b[..i]);
      ghost var step := WriteByteStep(marker, scope, prev.line, b[i]);
      RunNext(marker, scope, o, b, i);
      StepInLoop(marker, scope, prev, b[i]);
      ghost var pending := output + buffer;
      nextContext, nextPosition, nextBuffer, flushed := WriteByte(scope, b[i], lineContext, linePosition, buffer);
      assert output + nextBuffer == pending + Flatten(step.pieces);
      FlattenConcat(prev.pieces, step.pieces);
      Assoc(start, Flatten(prev.pieces), Flatten(step.pieces));
    }

    /** The byte loop of WriteScope, from the line state `o` reached by the
        interrupt check and the position switch; returns the bytes still
        buffered and the number flushed. */
    method WriteBytes(scope: Bytes, b: Bytes, ghost start: Bytes, ghost o: Trace, lineContext: LineContext, linePosition: int)
      returns (nextContext: LineContext, nextPosition: int, buffer: Bytes, written: int)
      requires Valid() && InLoop(scope, o)
      requires lineContext == o.line.context && linePosition == o.line.position
      requires decorator.interrupted == o.line.interrupted && output == start + Flatten(o.pieces)
      modifies this, decorator
      ensures Valid()
      ensures var t := Run(decorator.marker, scope, o, b);
        && nextContext == t.line.context && nextPosition == t.line.position
        && decorator.interrupted == t.line.interrupted
        && output + buffer == start + Flatten(t.pieces)
      ensures written + |buffer| == |b|
      ensures b != [] ==> buffer != [] && buffer[|buffer| - 1] == b[|b| - 1]
      ensures b != [] ==> (nextPosition == START <==> b[|b| - 1] == NEWLINE)
      ensures b == [] ==> buffer == [] && context == old(context) && position == old(position)
    {
      nextContext, nextPosition := lineContext, linePosition;
      buffer := [];
      written := 0;
      EmptyRight(output);
      for i := 0 to |b|
        invariant var t := Run(decorator.marker, scope, o, b[..i]);
          && nextContext == t.line.context && nextPosition == t.line.position
          && decorator.interrupted == t.line.interrupted
          && output + buffer == start + Flatten(t.pieces)
          && InLoop(scope, t)
        invariant written + |buffer| == i
        invariant Valid()
        invariant i > 0 ==> buffer != [] && buffer[|buffer| - 1] == b[i - 1]
        invariant i > 0 ==> (nextPosition == START <==> b[i - 1] == NEWLINE)
        invariant i == 0 ==> buffer == [] && context == old(context) && position == old(position)
      {
        var flushed;
        nextContext, nextPosition, buffer, flushed := WriteAt(scope, b, i, start, o, nextContext, nextPosition, buffer);
        written := written + flushed;
      }
      assert b[..|b|] == b;
    }

    /** WriteScope: writes b as a line or lines of `scope`. Every content
        byte is counted; prefixes and suffixes are not. */
    method WriteScope(scope: Bytes, b: Bytes) returns (n: int)
      requires Valid()
      modifies this, decorator
      ensures Valid()
      ensures n == |b|
      ensures var t := WriteTrace(decorator.marker, Line(old(context), old(position), old(decorator.interrupted)), scope, b);
        && output == old(output) + Flatten(t.pieces)
        && decorator.interrupted == t.line.interrupted
        && (t.pieces == [] ==> context == old(context) && position == old(position))
        && (t.pieces != [] ==> context == t.line.context && position == t.line.position)
    {
      ghost var st := Line(context, position, decorator.interrupted);
      ghost var start := output;
      ghost var o := Open(st, scope);
      var lineContext, linePosition := OpenLine(scope);
      var buffer, written;
      lineContext, linePosition, buffer, written := WriteBytes(scope, b, start, o, lineContext, linePosition);
      ghost var final := Run(decorator.marker, scope, o, b);
      assert final == WriteTrace(decorator.marker, st, scope, b);
      ghost var marks := decorator.interrupted;
      var flushed := Flush(buffer, lineContext);
      assert decorator.interrupted == marks;
      n := written + flushed;
      if b != [] {
        RunState(decorator.marker, scope, o, b);
      }
    }

    /** Write: the writer's own scope. */
    method Write(b: Bytes) returns (n: int)
      requires Valid()
      modifies this, decorator
      ensures Valid()
      ensures n == |b|
      ensures var t := WriteTrace(decorator.marker, Line(old(context), old(position), old(decorator.interrupted)), this.scope, b);
        && output == old(output) + Flatten(t.pieces)
        && decorator.interrupted == t.line.interrupted
        && (t.pieces == [] ==> context == old(context) && position == old(position))
        && (t.pieces != [] ==> context == t.line.context && position == t.line.position)
    {
      n := WriteScope(this.scope, b);
    }
  }

  /** subsystemLogWriter: forwards to the root writer under its own scope. A
      subsystem of a subsystem forwards through its parent, which forwards
      unchanged, so here every subsystem writer holds the root directly. */
  class SubsystemLogWriter {
    const root: RootLogWriter
    const scope: Bytes

    constructor (root: RootLogWriter, scope: Bytes)
      ensures this.root == root && this.scope == scope
    {
      this.root := root;
      this.scope := scope;
    }

    /** GetScope: the parent's. */
    function GetScope(scope: Bytes, name: Bytes): (r: Bytes)
      ensures r == root.GetScope(scope, name)
    {
      root.GetScope(scope, name)
    }

    /** Subsystem: a writer for the subsystem `name` of this scope. */
    method Subsystem(name: Bytes) returns (w: SubsystemLogWriter)
      ensures fresh(w) && w.root == root && w.scope == SubsystemName(scope, name)
    {
      w := new SubsystemLogWriter(root, GetScope(scope, name));
    }

    /** WriteScope: the parent's. */
    method WriteScope(scope: Bytes, b: Bytes) returns (n: int)
      requires root.Valid()
      modifies root, root.decorator
      ensures root.Valid()
      ensures n == |b|
      ensures var t := WriteTrace(root.decorator.marker, Line(old(root.context), old(root.position), old(root.decorator.interrupted)), scope, b);
        && root.output == old(root.output) + Flatten(t.pieces)
        && root.decorator.interrupted == t.line.interrupted
        && (t.pieces == [] ==> root.context == old(root.context) && root.position == old(root.position))
        && (t.pieces != [] ==> root.context == t.line.context && root.position == t.line.position)
    {
      n := root.WriteScope(scope, b);
    }

    /** Write: this writer's scope. */
    method Write(b: Bytes) returns (n: int)
      requires root.Valid()
      modifies root, root.decorator
      ensures root.Valid()
      ensures n == |b|
      ensures var t := WriteTrace(root.decorator.marker, Line(old(root.context), old(root.position), old(root.decorator.interrupted)), this.scope, b);
        && root.output == old(root.output) + Flatten(t.pieces)
        && root.decorator.interrupted == t.line.interrupted
        && (t.pieces == [] ==> root.context == old(root.context) && root.position == old(root.position))
        && (t.pieces != [] ==> root.context == t.line.context && root.position == t.line.position)
    {
      n := WriteScope(this.scope, b);
    }
  }
}
