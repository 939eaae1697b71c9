/** `JSONConverter.doIndentation`: a pretty-printing pass over JSON text that
    breaks the line after every `{`, `[` and `,` and before every `}` and `]`,
    and indents each new line by the bracket depth reached so far. */
module Indentation {

  predicate Opens(c: char) { c == '{' || c == '[' }

  predicate Closes(c: char) { c == '}' || c == ']' }

  /** How a character changes the bracket depth. */
  function Delta(c: char): int
  {
    if Opens(c) then 1 else if Closes(c) then -1 else 0
  }

  /** The bracket depth after `s`: opening brackets minus closing ones. The
      pass does not look inside JSON strings, and neither does this. */
  function Depth(s: string): int
  {
    if s == [] then 0 else Depth(s[..|s| - 1]) + Delta(s[|s| - 1])
  }

  function Max0(n: int): nat { if n < 0 then 0 else n }

  /** `n` copies of `t`; none when `n` is not positive, as the `for` loop of
      the pass does for a negative level. */
  function Repeat(t: string, n: int): (r: string)
    ensures |r| == Max0(n) * |t|
    decreases n
  {
    if n <= 0 then ""
    else
      var r := Repeat(t, n - 1) + t;
      assert Max0(n) * |t| == Max0(n - 1) * |t| + |t|;
      r
  }

  /** Whether the pass breaks the line after position `i`: the character is
      an opening bracket or a comma, or the next one is a closing bracket. At
      the last position the "next character" is `'\0'`, which never is. */
  predicate BreaksAfter(s: string, i: int)
    requires 0 <= i < |s|
  {
    Opens(s[i]) || s[i] == ',' || (i + 1 < |s| && Closes(s[i + 1]))
  }

  /** The line break and indentation inserted after position `i`, if any. */
  function Break(s: string, indent: string, i: int): string
    requires 0 <= i < |s|
  {
    if BreaksAfter(s, i) then "\n" + Repeat(indent, Depth(s[..i + 1])) else ""
  }

  /** What the pass emits for positions `i` onwards. */
  function Pieces(s: string, indent: string, i: int): string
    requires 0 <= i <= |s|
    decreases |s| - i
  {
    if i == |s| then "" else [s[i]] + Break(s, indent, i) + Pieces(s, indent, i + 1)
  }

  /** The indented text: every input character in order, each followed by
      its break. */
  function Indented(s: string, indent: string): string
  {
    Pieces(s, indent, 0)
  }

  lemma DepthSnoc(s: string, c: char)
    ensures Depth(s + [c]) == Depth(s) + Delta(c)
  {
    assert (s + [c])[..|s + [c]| - 1] == s;
  }

  /** The loop of `doIndentation`, with its `level` counter. */
  method DoIndentation(s: string, indent: string) returns (out: string)
    ensures out == Indented(s, indent)
  {
    out := "";
    var level := 0;
    var i := 0;
    while i < |s|
      invariant 0 <= i <= |s|
      invariant level == Depth(s[..i])
      invariant out + Pieces(s, indent, i) == Indented(s, indent)
      decreases |s| - i
    {
      var piece;
      piece, level := Step(s, indent, i, level);
      PiecesStep(s, indent, i, out, piece);
      out := out + piece;
      i := i + 1;
    }
  }

  /** One pass of the loop: the character at `i`, the updated level, and the
      line break with its indentation if one is due. */
  method Step(s: string, indent: string, i: int, level: int) returns (piece: string, level': int)
    requires 0 <= i < |s|
    requires level == Depth(s[..i])
    ensures piece == [s[i]] + Break(s, indent, i)
    ensures level' == Depth(s[..i + 1])
  {
    var c := s[i];
    var next := if i < |s| - 1 then s[i + 1] else '\0';
    piece := [c];
    level' := level;
    if c == '{' || c == '[' {
      level' := level' + 1;
    } else if c == '}' || c == ']' {
      level' := level' - 1;
    }
    LevelStep(s, i);
    BreakAt(s, indent, i, next);
    if c == '{' || c == '[' || c == ',' || next == ']' || next == '}' {
      piece := AppendBreak(piece, indent, level');
    }
  }

  lemma LevelStep(s: string, i: int)
    requires 0 <= i < |s|
    ensures Depth(s[..i + 1]) == Depth(s[..i]) + Delta(s[i])
  {
    assert s[..i + 1] == s[..i] + [s[i]];
    DepthSnoc(s[..i], s[i]);
  }

  /** The test of the loop, with `next` the following character or `'\0'`,
      is `BreaksAfter`. */
  lemma BreakAt(s: string, indent: string, i: int, next: char)
    requires 0 <= i < |s|
    requires next == if i < |s| - 1 then s[i + 1] else '\0'
    ensures var c := s[i];
            (c == '{' || c == '[' || c == ',' || next == ']' || next == '}') <==> BreaksAfter(s, i)
    ensures BreaksAfter(s, i) ==> Break(s, indent, i) == "\n" + Repeat(indent, Depth(s[..i + 1]))
    ensures !BreaksAfter(s, i) ==> Break(s, indent, i) == ""
  {
  }

  lemma PiecesStep(s: string, indent: string, i: int, before: string, piece: string)
    requires 0 <= i < |s|
    requires piece == [s[i]] + Break(s, indent, i)
    ensures before + piece + Pieces(s, indent, i + 1) == before + Pieces(s, indent, i)
  {
    PiecesUnfold(s, indent, i);
  }

  lemma PiecesUnfold(s: string, indent: string, i: int)
    requires 0 <= i < |s|
    ensures Pieces(s, indent, i) == [s[i]] + (Break(s, indent, i) + Pieces(s, indent, i + 1))
  {
  }

  /** The inner part of the loop: a line break and `level` copies of the
      indent string. */
  method AppendBreak(out: string, indent: string, level: int) returns (r: string)
    ensures r == out + ("\n" + Repeat(indent, level))
  {
    r := out + "\n";
    var n := 0;
    while n < level
      invariant 0 <= n <= Max0(level)
      invariant r == out + "\n" + Repeat(indent, n)
      decreases level - n
    {
      RepeatSnoc(indent, n);
      r := r + indent;
      n := n + 1;
    }
    assert Repeat(indent, n) == Repeat(indent, level);
  }

  lemma RepeatSnoc(t: string, n: nat)
    ensures Repeat(t, n + 1) == Repeat(t, n) + t
  {
  }

  // ---------------------------------------------------------------------------
  // Deleting the inserted segments gives the input back.

  /** Removes the inserted segments again, reading the output from left to
      right: a kept character updates the depth, and a line break is removed
      together with as many copies of `indent` as that depth calls for. */
  function Unindent(out: string, indent: string, depth: int): string
    decreases |out|
  {
    if out == [] then []
    else if out[0] == '\n' then
      var skip := 1 + Max0(depth) * |indent|;
      if skip <= |out| then Unindent(out[skip..], indent, depth) else []
    else [out[0]] + Unindent(out[1..], indent, depth + Delta(out[0]))
  }

  lemma UnindentKeep(c: char, t: string, indent: string, depth: int)
    requires c != '\n'
    ensures Unindent([c] + t, indent, depth) == [c] + Unindent(t, indent, depth + Delta(c))
  {
    assert ([c] + t)[1..] == t;
  }

  lemma UnindentSkip(t: string, indent: string, depth: int)
    ensures Unindent("\n" + Repeat(indent, depth) + t, indent, depth) == Unindent(t, indent, depth)
  {
    var u := "\n" + Repeat(indent, depth) + t;
    assert u[0] == '\n';
    assert u[1 + Max0(depth) * |indent|..] == t;
  }

  /** The segment after position `i`, read at the depth reached there, is
      skipped entirely. */
  lemma UnindentBreak(s: string, indent: string, i: int, rest: string)
    requires 0 <= i < |s|
    ensures Unindent(Break(s, indent, i) + rest, indent, Depth(s[..i + 1])) == Unindent(rest, indent, Depth(s[..i + 1]))
  {
    if BreaksAfter(s, i) {
      assert Break(s, indent, i) + rest == "\n" + Repeat(indent, Depth(s[..i + 1])) + rest;
      UnindentSkip(rest, indent, Depth(s[..i + 1]));
    } else {
      assert Break(s, indent, i) + rest == rest;
    }
  }

  lemma TailCons(s: string, i: int)
    requires 0 <= i < |s|
    ensures s[i..] == [s[i]] + s[i + 1..]
  {
  }

  lemma {:induction false} UnindentPieces(s: string, indent: string, i: int)
    requires 0 <= i <= |s|
    requires forall k :: 0 <= k < |s| ==> s[k] != '\n'
    ensures Unindent(Pieces(s, indent, i), indent, Depth(s[..i])) == s[i..]
    decreases |s| - i
  {
    if i < |s| {
      var brk := Break(s, indent, i);
      var rest := Pieces(s, indent, i + 1);
      PiecesUnfold(s, indent, i);
      LevelStep(s, i);
      UnindentPieces(s, indent, i + 1);
      UnindentKeep(s[i], brk + rest, indent, Depth(s[..i]));
      UnindentBreak(s, indent, i, rest);
      TailCons(s, i);
    }
  }

  /** For JSON text without line breaks (as `JsonWriter` writes it), deleting
      every inserted segment gives the input back: every input character is
      emitted, in order, and nothing else but the segments. */
  lemma UnindentIndented(s: string, indent: string)
    requires forall k :: 0 <= k < |s| ==> s[k] != '\n'
    ensures Unindent(Indented(s, indent), indent, 0) == s
  {
    UnindentPieces(s, indent, 0);
    assert s[..0] == [];
  }

  /** Text without brackets or commas is left unchanged. */
  lemma {:induction false} NoBracketsUnchanged(s: string, indent: string, i: int)
    requires 0 <= i <= |s|
    requires forall k :: 0 <= k < |s| ==> !Opens(s[k]) && !Closes(s[k]) && s[k] != ','
    ensures Pieces(s, indent, i) == s[i..]
    decreases |s| - i
  {
    if i < |s| {
      NoBracketsUnchanged(s, indent, i + 1);
      assert s[i..] == [s[i]] + s[i + 1..];
    }
  }
}
