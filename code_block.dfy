/**
 * The collapsed view of a code block on the profile page: the code split on
 * line feeds, the first six lines joined back, and a toggle that is offered
 * only when there are more lines than that.
 */
module CodeBlock {

  /** How many lines the collapsed view keeps. */
  const CollapsedLines: nat := 6

  /** `s.split("\n")`: the pieces between line feeds; the empty string gives one empty piece. */
  function Split(s: string): (lines: seq<string>)
    ensures |lines| >= 1
    ensures forall i :: 0 <= i < |lines| ==> '\n' !in lines[i]
  {
    if s == [] then [""]
    else if s[0] == '\n' then [""] + Split(s[1..])
    else
      var rest := Split(s[1..]);
      [[s[0]] + rest[0]] + rest[1..]
  }

  /** `lines.join("\n")`. */
  function Join(lines: seq<string>): string
  {
    if lines == [] then ""
    else if |lines| == 1 then lines[0]
    else lines[0] + "\n" + Join(lines[1..])
  }

  /** Joining the pieces of a split gives the string back. */
  lemma {:induction false} JoinSplit(s: string)
    ensures Join(Split(s)) == s
  {
    if s != [] {
      JoinSplit(s[1..]);
      var rest := Split(s[1..]);
      if s[0] == '\n' {
        assert Split(s) == [""] + rest;
        assert s == "\n" + s[1..];
      } else {
        var lines := Split(s);
        assert lines[0] == [s[0]] + rest[0] && lines[1..] == rest[1..];
        if |rest| == 1 {
          assert s == [s[0]] + rest[0];
        } else {
          assert rest[0] + "\n" + Join(rest[1..]) == s[1..];
          assert s == ([s[0]] + rest[0]) + "\n" + Join(rest[1..]);
        }
      }
    }
  }

  /** Splitting a join of line-feed-free pieces gives the pieces back. */
  lemma {:induction false} SplitJoin(lines: seq<string>)
    requires |lines| >= 1
    requires forall i :: 0 <= i < |lines| ==> '\n' !in lines[i]
    ensures Split(Join(lines)) == lines
  {
    if |lines| == 1 {
      SplitLine(lines[0]);
    } else {
      SplitJoin(lines[1..]);
      SplitLineThen(lines[0], Join(lines[1..]));
    }
  }

  /** A piece without a line feed splits into itself. */
  lemma {:induction false} SplitLine(s: string)
    requires '\n' !in s
    ensures Split(s) == [s]
  {
    if s != [] {
      SplitLine(s[1..]);
      assert s == [s[0]] + s[1..];
    }
  }

  /** A piece without a line feed, a line feed, then the rest: the piece is the first line. */
  lemma {:induction false} SplitLineThen(s: string, t: string)
    requires '\n' !in s
    ensures Split(s + "\n" + t) == [s] + Split(t)
  {
    if s == [] {
      assert s + "\n" + t == "\n" + t;
      assert ("\n" + t)[1..] == t;
    } else {
      SplitLineThen(s[1..], t);
      assert (s + "\n" + t)[1..] == s[1..] + "\n" + t;
      assert (s + "\n" + t)[0] == s[0];
      assert s == [s[0]] + s[1..];
    }
  }

  /** The joined first `n` pieces are a prefix of the joined pieces. */
  lemma {:induction false} JoinTakeIsPrefix(lines: seq<string>, n: nat)
    requires n <= |lines|
    ensures Join(lines[..n]) <= Join(lines)
  {
    if n > 0 && |lines| > 1 {
      if n == 1 {
        assert lines[..1] == [lines[0]];
      } else {
        JoinTakeIsPrefix(lines[1..], n - 1);
        assert lines[..n][1..] == lines[1..][..n - 1];
        var head := lines[0] + "\n";
        assert Join(lines[..n]) == head + Join(lines[1..][..n - 1]);
        assert Join(lines) == head + Join(lines[1..]);
      }
    }
  }

  /** The lines the component computes: `code.split("\n")`. */
  function Lines(code: string): (lines: seq<string>)
    ensures |lines| >= 1 && Join(lines) == code
  {
    JoinSplit(code);
    Split(code)
  }

  /** `displayCode`: the whole code when expanded, otherwise the first six lines joined back. */
  function DisplayCode(code: string, isExpanded: bool): (shown: string)
    ensures isExpanded ==> shown == code
    ensures !isExpanded ==> Split(shown) == Lines(code)[..Min(CollapsedLines, |Lines(code)|)]
    ensures |Split(shown)| <= |Lines(code)|
    ensures !isExpanded ==> |Split(shown)| <= CollapsedLines
    ensures shown <= code
  {
    if isExpanded then code
    else
      var lines := Lines(code);
      var kept := lines[..Min(CollapsedLines, |lines|)];
      SplitJoin(kept);
      JoinTakeIsPrefix(lines, |kept|);
      Join(kept)
  }

  function Min(a: nat, b: nat): nat {
    if a <= b then a else b
  }

  /** The "Show More"/"Show Less" button is rendered: more than six lines. */
  predicate HasToggle(code: string) {
    |Lines(code)| > CollapsedLines
  }

  /** Without the toggle the whole code is shown either way; with it, the collapsed view is shorter. */
  lemma ShortCodeShownWhole(code: string, isExpanded: bool)
    ensures !HasToggle(code) ==> DisplayCode(code, isExpanded) == code
    ensures HasToggle(code) ==> |DisplayCode(code, false)| < |code|
  {
    var lines := Lines(code);
    if !HasToggle(code) {
      assert lines[..|lines|] == lines;
      JoinSplit(code);
    } else {
      var shown := DisplayCode(code, false);
      assert |Split(shown)| == CollapsedLines < |Split(code)|;
      assert shown == code[..|shown|] && code[..|code|] == code;
    }
  }

  /** The `isExpanded` state of one rendered block. */
  class CodeBlockView {
    const code: string
    var isExpanded: bool

    constructor (code: string)
      ensures this.code == code && !isExpanded
    {
      this.code := code;
      isExpanded := false;
    }

    function Shown(): (shown: string)
      reads this
      ensures isExpanded ==> shown == code
      ensures shown <= code
    {
      DisplayCode(code, isExpanded)
    }

    /** The button's `onClick`: `setIsExpanded(!isExpanded)`. */
    method Toggle()
      modifies this
      ensures isExpanded == !old(isExpanded)
    {
      isExpanded := !isExpanded;
    }
  }
}
