/**
  Code emission (`compile`), as a pure function from a tree to the lines it prints.

  Each `println` call becomes one element of the line sequence; `Text` renders the
  sequence the way the print writer would, with "\n" after each line.
  Emission takes no context: it is a function of the tree alone, so the same tree
  always yields the same text.
 */
module Compiler {
  import opened Ast

  /** The header a loop prints: an unconditional Java loop. */
  const LoopHeader: string := "while(true)"

  function NatToString(n: nat): (s: string)
    ensures |s| >= 1
    decreases n
  {
    var digit := ["0", "1", "2", "3", "4", "5", "6", "7", "8", "9"][n % 10];
    if n < 10 then digit else NatToString(n / 10) + digit
  }

  function IntToString(k: int): string
  {
    if k < 0 then "-" + NatToString(-k) else NatToString(k)
  }

  /** `compile(out)` of each node. A loop prints its header and then asks its body
      to print itself; the other kinds are stand-ins. The first line printed is the
      loop header exactly when the node is a loop. */
  function Compile(s: Stmt): (lines: seq<string>)
    ensures |lines| >= 1
    ensures lines[0] == LoopHeader <==> s.Loop?
  {
    match s
    case Loop(b) => [LoopHeader] + Compile(b)
    case Exit => ["break;"]
    case Fail(m) => ["throw new RuntimeException(\"" + m + "\");"]
    case Increment(x) =>
      var line := x + "++;";
      assert line[|line| - 1] != LoopHeader[|LoopHeader| - 1];
      [line]
    case IfAtLeast(x, k, t) =>
      var line := "if(" + x + " >= " + IntToString(k) + ")";
      assert line[0] != LoopHeader[0];
      [line] + Compile(t)
    case Sequence(a, b) => ["{"] + Compile(a) + Compile(b) + ["}"]
  }

  /** The text a sequence of `println` calls writes, with "\n" as the line separator. */
  function Text(lines: seq<string>): string
  {
    if |lines| == 0 then "" else lines[0] + "\n" + Text(lines[1..])
  }

  /** Printing two batches of lines one after the other writes the two texts in order. */
  lemma {:induction false} TextAppend(a: seq<string>, b: seq<string>)
    ensures Text(a + b) == Text(a) + Text(b)
    decreases |a|
  {
    if |a| > 0 {
      assert (a + b)[1..] == a[1..] + b;
      TextAppend(a[1..], b);
    } else {
      assert a + b == b;
    }
  }

  /** A loop's text is exactly "while(true)" and a newline, then the body's own text,
      with nothing in between or after. */
  lemma CompileLoopText(b: Stmt)
    ensures Text(Compile(Loop(b))) == "while(true)\n" + Text(Compile(b))
  {
    TextAppend([LoopHeader], Compile(b));
  }

  /** Two loops print the same text iff their bodies do: the header adds no
      information of its own and the body's text is recovered by dropping it. */
  lemma LoopTextDeterminedByBody(a: Stmt, b: Stmt)
    ensures Text(Compile(Loop(a))) == Text(Compile(Loop(b))) <==> Text(Compile(a)) == Text(Compile(b))
  {
    CompileLoopText(a);
    CompileLoopText(b);
    var h := "while(true)\n";
    var ta, tb := Text(Compile(a)), Text(Compile(b));
    if h + ta == h + tb {
      assert ta == (h + ta)[|h|..];
      assert tb == (h + tb)[|h|..];
    }
  }

  /** Number of loop headers among the printed lines. */
  function HeaderCount(lines: seq<string>): nat
  {
    if |lines| == 0 then 0
    else (if lines[0] == LoopHeader then 1 else 0) + HeaderCount(lines[1..])
  }

  /** Number of loop nodes in a tree. */
  function LoopCount(s: Stmt): nat
  {
    match s
    case Loop(b) => 1 + LoopCount(b)
    case Exit => 0
    case Fail(_) => 0
    case Increment(_) => 0
    case IfAtLeast(_, _, t) => LoopCount(t)
    case Sequence(a, b) => LoopCount(a) + LoopCount(b)
  }

  lemma {:induction false} HeaderCountAppend(a: seq<string>, b: seq<string>)
    ensures HeaderCount(a + b) == HeaderCount(a) + HeaderCount(b)
    decreases |a|
  {
    if |a| > 0 {
      assert (a + b)[1..] == a[1..] + b;
      HeaderCountAppend(a[1..], b);
    } else {
      assert a + b == b;
    }
  }

  /** Emission writes exactly one loop header per loop node of the tree: no other
      node prints one, and no loop prints more than one. */
  lemma {:induction false} OneHeaderPerLoop(s: Stmt)
    ensures HeaderCount(Compile(s)) == LoopCount(s)
  {
    match s
    case Loop(b) =>
      OneHeaderPerLoop(b);
      HeaderCountAppend([LoopHeader], Compile(b));
    case Exit =>
    case Fail(m) =>
      var line := "throw new RuntimeException(\"" + m + "\");";
      assert line[0] == 't';
      assert HeaderCount([line]) == 0;
    case Increment(x) =>
      var line := x + "++;";
      assert line[|line| - 1] == ';';
      assert LoopHeader[|LoopHeader| - 1] == ')';
      assert HeaderCount([line]) == 0;
    case IfAtLeast(x, k, t) =>
      var line := "if(" + x + " >= " + IntToString(k) + ")";
      assert line[0] == 'i';
      OneHeaderPerLoop(t);
      HeaderCountAppend([line], Compile(t));
    case Sequence(a, b) =>
      OneHeaderPerLoop(a);
      OneHeaderPerLoop(b);
      HeaderCountAppend(["{"] + Compile(a), Compile(b));
      HeaderCountAppend(["{"], Compile(a));
      HeaderCountAppend(["{"] + Compile(a) + Compile(b), ["}"]);
  }

  /** `n` loops wrapped around `b`. */
  function Nest(n: nat, b: Stmt): Stmt
  {
    if n == 0 then b else Loop(Nest(n - 1, b))
  }

  function RepeatText(t: string, n: nat): string
  {
    if n == 0 then "" else t + RepeatText(t, n - 1)
  }

  /** Nested loops print their headers outermost first, then the innermost body. */
  lemma {:induction false} NestedLoopsText(n: nat, b: Stmt)
    ensures Text(Compile(Nest(n, b))) == RepeatText("while(true)\n", n) + Text(Compile(b))
  {
    if n > 0 {
      var h := "while(true)\n";
      var inner := Nest(n - 1, b);
      var rest, tail := RepeatText(h, n - 1), Text(Compile(b));
      assert Nest(n, b) == Loop(inner);
      CompileLoopText(inner);
      NestedLoopsText(n - 1, b);
      assert Text(Compile(inner)) == rest + tail;
      assert RepeatText(h, n) == h + rest;
      assert h + (rest + tail) == (h + rest) + tail;
    }
  }
}
