/** TspSolverService.GetPath (TSP/Service/TspSolverService.cs): installs the parameters on
    the genetic strategy, runs it, and renders the tour as text: a "Cost: " line, then one
    "X Y" line per point, separated by '\n' with none after the last. `double.ToString` is
    the parameter `show`. */
module SolverService {
  import opened Results
  import opened Rand
  import opened Points
  import opened Maps
  import opened MapPaths
  import opened GeneticParameters
  import opened Text
  import opened Seqs
  import Engine
  import Converter
  import FormatChecker

  /** The text of one point: X, a space, Y. */
  function PointLine(p: Point, show: real -> string): string {
    show(p.x) + " " + show(p.y)
  }

  /** The point lines of a tour, in tour order. */
  function PointLines(points: seq<Point>, show: real -> string): (lines: seq<string>)
    ensures |lines| == |points|
    ensures forall i :: 0 <= i < |points| ==> lines[i] == PointLine(points[i], show)
  {
    seq(|points|, i requires 0 <= i < |points| => PointLine(points[i], show))
  }

  /** The `for` loop from point `i` on: each point's line, followed by '\n' unless it is the
      last point. */
  function AppendLines(points: seq<Point>, i: nat, acc: string, show: real -> string): string
    requires i <= |points|
    decreases |points| - i
  {
    if i == |points| then acc
    else AppendLines(points, i + 1, acc + PointLine(points[i], show) + (if i != |points| - 1 then "\n" else ""), show)
  }

  /** The text `GetPath` builds for a tour. */
  function Format(path: MapPath, show: real -> string): string {
    AppendLines(path.points, 0, "Cost: " + show(path.manualCost) + "\n", show)
  }

  /** `GetPath(map, parameters, token)`: the parameters are those the strategy runs with;
      whatever the strategy throws, cancellation included, propagates and no text is made. */
  function GetPath(cities: Map, params: Parameters, cancelled: nat -> bool, rand: Random,
                   sqrt: real -> real, show: real -> string): (r: Result<string>)
    ensures r.Err? <==> Engine.GetPath(cities, params, cancelled, rand, sqrt).Err?
    ensures r.Err? ==> r.error == Engine.GetPath(cities, params, cancelled, rand, sqrt).error
  {
    var path :- Engine.GetPath(cities, params, cancelled, rand, sqrt);
    Ok(Format(path, show))
  }

  /** The loop appends the point lines joined by '\n'. */
  lemma {:induction false} AppendLinesJoin(points: seq<Point>, i: nat, acc: string, show: real -> string)
    requires i < |points|
    ensures AppendLines(points, i, acc, show) == acc + Join(PointLines(points, show)[i..], '\n')
    decreases |points| - i
  {
    var lines := PointLines(points, show);
    var line := PointLine(points[i], show);
    if i == |points| - 1 {
      assert lines[i..] == [line];
      assert acc + line + "" == acc + line;
    } else {
      AppendLinesJoin(points, i + 1, acc + line + "\n", show);
      assert lines[i..] == [line] + lines[i + 1..];
      JoinCons(line, lines[i + 1..], '\n');
      Assoc(acc, line + "\n", Join(lines[i + 1..], '\n'));
      Assoc(line, "\n", Join(lines[i + 1..], '\n'));
    }
  }

  /** The text of a non-empty tour is its cost line and its point lines joined by '\n'. */
  lemma FormatIsJoin(path: MapPath, show: real -> string)
    requires |path.points| > 0
    ensures Format(path, show) == Join(["Cost: " + show(path.manualCost)] + PointLines(path.points, show), '\n')
  {
    var head := "Cost: " + show(path.manualCost);
    var lines := PointLines(path.points, show);
    AppendLinesJoin(path.points, 0, head + "\n", show);
    assert lines[0..] == lines;
    JoinCons(head, lines, '\n');
  }

  /** An empty tour renders as the cost line with a line break after it. */
  lemma EmptyPathFormat(path: MapPath, show: real -> string)
    requires |path.points| == 0
    ensures Format(path, show) == "Cost: " + show(path.manualCost) + "\n"
  {
  }

  lemma NewlineIsWhiteSpace()
    ensures IsWhiteSpace('\n')
  {
  }

  /** When numbers print without line breaks, the text of an n-point tour splits into n + 1
      lines: the cost line, then the points in order. */
  lemma FormatLines(path: MapPath, show: real -> string)
    requires |path.points| > 0
    requires forall x :: '\n' !in show(x)
    ensures Split(Format(path, show), '\n') == ["Cost: " + show(path.manualCost)] + PointLines(path.points, show)
  {
    var parts := ["Cost: " + show(path.manualCost)] + PointLines(path.points, show);
    FormatIsJoin(path, show);
    forall k | 0 <= k < |parts|
      ensures '\n' !in parts[k]
    {
      if k == 0 {
        assert '\n' !in "Cost: ";
      } else {
        assert parts[k] == PointLine(path.points[k - 1], show);
      }
    }
    SplitJoin(parts, '\n');
  }

  /** Both coordinates of `p`, once printed, parse back to themselves. */
  predicate ReadsBack(p: Point, show: real -> string, parse: string -> Option<real>) {
    parse(show(p.x)) == Some(p.x) && parse(show(p.y)) == Some(p.y)
  }

  /** The point line of `p` reads back as `p`, when a printed number is one word and the
      coordinates of `p` parse back to themselves. */
  lemma PointLineReadsBack(p: Point, show: real -> string, parse: string -> Option<real>)
    requires forall x :: IsWord(show(x))
    requires ReadsBack(p, show, parse)
    ensures FormatChecker.LineAccepted(PointLine(p, show), parse)
    ensures Converter.LinePoint(PointLine(p, show), parse) == Ok(p)
  {
    assert IsWord(show(p.x)) && IsWord(show(p.y));
    SpaceIsWhiteSpace();
    TokensOfPair(show(p.x), " ", show(p.y));
    TokensAreWords(PointLine(p, show));
  }

  /** The text after the first line break: the point lines of the output. */
  function AfterFirstLine(text: string): string {
    var lines := Split(text, '\n');
    if |lines| < 2 then "" else Join(lines[1..], '\n')
  }

  /** A printed number that is one word holds no line break. */
  lemma WordsHoldNoLineBreak(show: real -> string)
    requires forall x :: IsWord(show(x))
    ensures forall x :: '\n' !in show(x)
  {
    forall x ensures '\n' !in show(x) {
      NewlineIsWhiteSpace();
      assert IsWord(show(x));
    }
  }

  /** The point lines of the output, fed back to the input converter, give the tour's points
      again, and the input checker accepts them under any line limit the tour fits in. */
  lemma OutputReadsBack(path: MapPath, show: real -> string, parse: string -> Option<real>, maxNumberOfLines: int)
    requires |path.points| > 0 && |path.points| <= maxNumberOfLines
    requires forall x :: IsWord(show(x))
    requires forall p :: p in path.points ==> ReadsBack(p, show, parse)
    ensures var body := AfterFirstLine(Format(path, show));
            && Converter.SimpleXY(body, parse) == Ok(Map(path.points))
            && FormatChecker.SimpleXY(body, maxNumberOfLines, parse)
  {
    WordsHoldNoLineBreak(show);
    FormatLines(path, show);
    var lines := PointLines(path.points, show);
    assert Split(Format(path, show), '\n')[1..] == lines;
    var body := Join(lines, '\n');
    forall k | 0 <= k < |lines|
      ensures '\n' !in lines[k]
    {
      assert '\n' !in show(path.points[k].x) && '\n' !in show(path.points[k].y);
    }
    SplitJoin(lines, '\n');
    forall k | 0 <= k < |lines|
      ensures FormatChecker.LineAccepted(lines[k], parse)
      ensures |Words(lines[k])| >= 2
      ensures Converter.LinePoint(lines[k], parse) == Ok(path.points[k])
    {
      assert path.points[k] in path.points;
      PointLineReadsBack(path.points[k], show, parse);
    }
    assert AfterFirstLine(Format(path, show)) == body;
    var r := Converter.SimpleXY(body, parse);
    assert r.Ok?;
    Converter.ConvertsLineByLine(body, parse);
    assert r.value.points == path.points;
  }

  /** The service's answer for a map of at least two distinct points, runnable settings and
      no cancellation: a cost line and one line per city, whose points, read back by the
      input converter, are the cities in some order. */
  lemma ServiceAnswer(cities: Map, params: Parameters, cancelled: nat -> bool, rand: Random, sqrt: real -> real,
                      show: real -> string, parse: string -> Option<real>)
    requires NoDuplicates(cities.points) && |cities.points| >= 2
    requires Engine.Runnable(params)
    requires Engine.NeverCancelled(cancelled, 0, Times(params.epochCount))
    requires forall x :: IsWord(show(x))
    requires forall p :: p in cities.points ==> ReadsBack(p, show, parse)
    ensures var answer := GetPath(cities, params, cancelled, rand, sqrt, show);
            && answer.Ok?
            && |Split(answer.value, '\n')| == |cities.points| + 1
            && Converter.SimpleXY(AfterFirstLine(answer.value), parse).Ok?
            && multiset(Converter.SimpleXY(AfterFirstLine(answer.value), parse).value.points) == multiset(cities.points)
  {
    Engine.GetPathSound(cities, params, cancelled, rand, sqrt);
    var path := Engine.GetPath(cities, params, cancelled, rand, sqrt).value;
    assert |path.points| == |multiset(path.points)| == |cities.points|;
    forall p | p in path.points
      ensures ReadsBack(p, show, parse)
    {
      assert p in multiset(path.points);
    }
    WordsHoldNoLineBreak(show);
    FormatLines(path, show);
    OutputReadsBack(path, show, parse, |path.points|);
  }
}
