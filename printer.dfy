/**
 * The C++ writer of the text format (frame.hpp). Coordinates are printed
 * with `std::fixed`, that is with exactly six fraction digits; here a
 * coordinate is held as a whole number of millionths, so that what is
 * printed is exactly the number that is held.
 *
 * `path` collects points with `add` and is printed by a loop that puts `,`
 * after every point but the last and `]` after the last one; `rect` and
 * `new_frame` are printed in one statement each.
 */
module FramePrinter {
  import opened Lexer

  /** Millionths per unit: six fraction digits. */
  const Micro: nat := 1000000

  /** A `pos2` whose coordinates are `x / 10^6` and `y / 10^6`. */
  datatype FPos = FPos(x: int, y: int)

  /** The number a count of millionths stands for. */
  function Value(n: int): (v: real)
    ensures (v < 0.0) <==> (n < 0)
  {
    n as real / Micro as real
  }

  /** `std::fixed` printing: an optional `-`, the whole part, `.`, six fraction digits. */
  function FixedText(n: int): string
  {
    var m := if n < 0 then -n else n;
    (if n < 0 then "-" else "") + (NatToDigits(m / Micro) + ("." + Padded(m % Micro, 6)))
  }

  /** `operator<<(pos2)`: `(x,y)`. */
  function PosText(p: FPos): string
  {
    "(" + FixedText(p.x) + "," + FixedText(p.y) + ")"
  }

  /** `operator<<(new_frame)`: the header line. */
  function HeaderText(min: FPos, max: FPos): string
  {
    "# " + PosText(min) + " " + PosText(max) + "\n"
  }

  /** What the loop of `operator<<(path)` writes after point `i`: `]` after the last one, `,` otherwise. */
  function Mark(ps: seq<FPos>, i: nat): (c: string)
    ensures c == "]" || c == ","
  {
    if i + 1 == |ps| then "]" else ","
  }

  /** What the round for point `i` of the loop of `operator<<(path)` writes. */
  function Items(ps: seq<FPos>): (items: seq<string>)
    ensures |items| == |ps|
  {
    seq(|ps|, i requires 0 <= i < |ps| => PosText(ps[i]) + Mark(ps, i))
  }

  /** The texts one after the other, in the order a loop writes them. */
  function Join(items: seq<string>): string
  {
    if items == [] then "" else Join(items[..|items| - 1]) + items[|items| - 1]
  }

  /** The same, written front to back. */
  function JoinFront(items: seq<string>): string
  {
    if items == [] then "" else items[0] + JoinFront(items[1..])
  }

  /** `operator<<(path)` as written: note that an empty path gets no `]`. */
  function PathText(msg: string, ps: seq<FPos>): string
  {
    "p [" + Join(Items(ps)) + " {{" + msg + "}}\n"
  }

  /** The path line as the grammar needs it: `]` is written for an empty path too. */
  function PathLine(msg: string, ps: seq<FPos>): (t: string)
    ensures |ps| > 0 ==> t == PathText(msg, ps)
  {
    if |ps| == 0 then "p []" + " {{" + msg + "}}\n" else PathText(msg, ps)
  }

  /** `operator<<(rect)`. */
  function RectText(msg: string, p1: FPos, p2: FPos): string
  {
    "r " + PosText(p1) + " " + PosText(p2) + " {{" + msg + "}}\n"
  }

  /** Writing a list front to back or back to front gives the same text. */
  lemma {:induction false} JoinBothWays(items: seq<string>)
    ensures Join(items) == JoinFront(items)
    decreases |items|
  {
    if items != [] {
      var n := |items| - 1;
      if n == 0 {
        assert Join(items) == Join([]) + items[0];
        assert JoinFront(items) == items[0] + JoinFront([]);
      } else {
        var mid := items[1..n];
        assert items[..n][1..] == mid && items[1..][..n - 1] == mid;
        JoinBothWays(items[..n]);
        JoinBothWays(items[1..]);
        JoinBothWays(mid);
        assert Join(items[1..]) == Join(mid) + items[n];
        assert JoinFront(items[..n]) == items[0] + JoinFront(mid);
        assert Join(items) == (items[0] + Join(mid)) + items[n];
        assert JoinFront(items) == items[0] + (Join(mid) + items[n]);
      }
    }
  }

  /** One more round of a loop adds one more text at the end. */
  lemma JoinStep(items: seq<string>, i: nat)
    requires i < |items|
    ensures Join(items[..i + 1]) == Join(items[..i]) + items[i]
  {
    assert items[..i + 1][..i] == items[..i];
  }

  lemma Assoc(a: string, b: string, c: string)
    ensures a + b + c == a + (b + c)
  {
  }

  /** The last character of a concatenation is the last character of its non-empty right part. */
  lemma LastOfConcat(a: string, b: string)
    requires |b| > 0
    ensures (a + b)[|a + b| - 1] == b[|b| - 1]
  {
  }

  /** The point list of a non-empty path ends in `]`. */
  lemma PathBracket(ps: seq<FPos>)
    requires |ps| > 0
    ensures Join(Items(ps))[|Join(Items(ps))| - 1] == ']'
  {
    var items := Items(ps);
    var k := |ps| - 1;
    var point := PosText(ps[k]);
    assert items[k] == point + Mark(ps, k);
    LastOfConcat(point, "]");
    LastOfConcat(Join(items[..k]), items[k]);
  }

  /** An empty path leaves the `[` open: its line is `p [ {{msg}}`. */
  lemma EmptyPathOpen(msg: string)
    ensures PathText(msg, []) == "p [ {{" + msg + "}}\n"
  {
    assert Items([]) == [];
  }

  /** `frame::path`: a label and the points added so far. */
  class PathBuilder {
    var msg: string
    var ps: seq<FPos>

    constructor(msg: string)
      ensures this.msg == msg && ps == []
    {
      this.msg := msg;
      ps := [];
    }

    /** `path::add`: appends one point. */
    method Add(p: FPos)
      modifies this
      ensures ps == old(ps) + [p] && msg == old(msg)
    {
      ps := ps + [p];
    }

    /** `operator<<(path)`: the loop over the points, then the label. */
    method Write() returns (out: string)
      ensures out == PathText(msg, ps)
    {
      out := "p [";
      var i := 0;
      ghost var items := Items(ps);
      while i < |ps|
        invariant 0 <= i <= |ps|
        invariant out == "p [" + Join(items[..i])
      {
        var piece := PosText(ps[i]) + Mark(ps, i);
        assert piece == items[i];
        JoinStep(items, i);
        Assoc("p [", Join(items[..i]), piece);
        out := out + piece;
        i := i + 1;
      }
      assert items[..i] == items;
      out := out + " {{" + msg + "}}\n";
    }
  }
}
