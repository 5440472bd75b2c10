/** Converter.SimpleXY (TSP/InputVerification/Converter.cs), from the file content on: one
    point per '\n'-separated line, built from the line's first two tokens. The method does
    not check the format: a token that is not a number gives 0 (the value `double.TryParse`
    leaves behind), tokens after the second are ignored, and a line with fewer than two
    tokens fails on `numbers[1]`. */
module Converter {
  import opened Results
  import opened Text
  import opened Points
  import opened Maps
  import FormatChecker

  /** A coordinate: the parsed number, or 0 when the token is not one. */
  function Coordinate(token: string, parse: string -> Option<real>): real {
    parse(token).GetOr(0.0)
  }

  /** The point of one line, read from its first two words. */
  function LinePoint(line: string, parse: string -> Option<real>): (r: Result<Point>)
    ensures r.Ok? <==> |Words(line)| >= 2
    ensures r.Err? ==> r.error == IndexOutOfRange
    ensures r.Ok? ==> r.value == Point(Coordinate(Words(line)[0], parse), Coordinate(Words(line)[1], parse))
  {
    TokensAreWords(line);
    var numbers := Tokens(line);
    if |numbers| < 2 then Err(IndexOutOfRange)
    else Ok(Point(Coordinate(numbers[0], parse), Coordinate(numbers[1], parse)))
  }

  /** Every line from `from` on has at least two words. */
  predicate TwoWordsFrom(lines: seq<string>, from: nat) {
    forall k :: from <= k < |lines| ==> |Words(lines[k])| >= 2
  }

  /** The `foreach` over the lines from `i` on, adding each line's point to `acc`. */
  function ConvertLines(lines: seq<string>, i: nat, acc: Map, parse: string -> Option<real>): (r: Result<Map>)
    requires i <= |lines|
    ensures r.Ok? <==> TwoWordsFrom(lines, i)
    ensures r.Err? ==> r.error == IndexOutOfRange
    ensures r.Ok? ==> |r.value.points| == |acc.points| + |lines| - i
    decreases |lines| - i
  {
    if i == |lines| then Ok(acc)
    else
      var point :- LinePoint(lines[i], parse);
      ConvertLines(lines, i + 1, Add(acc, point), parse)
  }

  /** The points already in `acc` stay, and after them comes the point of each line. */
  lemma {:induction false} ConvertLinesPoints(lines: seq<string>, i: nat, acc: Map, parse: string -> Option<real>)
    requires i <= |lines| && ConvertLines(lines, i, acc, parse).Ok?
    ensures var r := ConvertLines(lines, i, acc, parse).value;
            && (forall k :: 0 <= k < |acc.points| ==> r.points[k] == acc.points[k])
            && (forall k :: i <= k < |lines| ==> r.points[|acc.points| + k - i] == LinePoint(lines[k], parse).value)
    decreases |lines| - i
  {
    if i < |lines| {
      var next := Add(acc, LinePoint(lines[i], parse).value);
      assert ConvertLines(lines, i, acc, parse) == ConvertLines(lines, i + 1, next, parse);
      ConvertLinesPoints(lines, i + 1, next, parse);
      var r := ConvertLines(lines, i + 1, next, parse).value;
      assert r.points[|acc.points|] == next.points[|acc.points|];
      forall k | i < k < |lines|
        ensures r.points[|acc.points| + k - i] == LinePoint(lines[k], parse).value
      {
        var j := |next.points| + k - (i + 1);
        assert r.points[j] == LinePoint(lines[k], parse).value;
        assert j == |acc.points| + k - i;
      }
    }
  }

  /** `SimpleXY(text)` on the content of `text`: it fails exactly when some line has fewer
      than two words, and otherwise yields one point per line. */
  function SimpleXY(content: string, parse: string -> Option<real>): (r: Result<Map>)
    ensures r.Ok? <==> TwoWordsFrom(Split(content, '\n'), 0)
    ensures r.Err? ==> r.error == IndexOutOfRange
    ensures r.Ok? ==> |r.value.points| == Count(content, '\n') + 1
  {
    ConvertLines(Split(content, '\n'), 0, Empty(), parse)
  }

  /** Point `k` is read from line `k`. */
  lemma ConvertsLineByLine(content: string, parse: string -> Option<real>)
    requires SimpleXY(content, parse).Ok?
    ensures var lines := Split(content, '\n');
            forall k :: 0 <= k < |lines| ==> SimpleXY(content, parse).value.points[k] == LinePoint(lines[k], parse).value
  {
    var lines := Split(content, '\n');
    var r := ConvertLines(lines, 0, Empty(), parse);
    ConvertLinesPoints(lines, 0, Empty(), parse);
    forall k | 0 <= k < |lines|
      ensures r.value.points[k] == LinePoint(lines[k], parse).value
    {
      assert r.value.points[|Empty().points| + k - 0] == LinePoint(lines[k], parse).value;
    }
  }

  /** Content the checker accepts converts without failing, to one point per line whose
      coordinates are the line's two numbers. */
  lemma CheckedContentConverts(content: string, maxNumberOfLines: int, parse: string -> Option<real>)
    requires FormatChecker.SimpleXY(content, maxNumberOfLines, parse)
    ensures var lines := Split(content, '\n');
            && SimpleXY(content, parse).Ok?
            && |SimpleXY(content, parse).value.points| == |lines| <= maxNumberOfLines
            && forall k :: 0 <= k < |lines| ==>
                 SimpleXY(content, parse).value.points[k]
                 == Point(parse(Tokens(lines[k])[0]).value, parse(Tokens(lines[k])[1]).value)
  {
    var lines := Split(content, '\n');
    forall k | 0 <= k < |lines|
      ensures |Words(lines[k])| >= 2
      ensures LinePoint(lines[k], parse).value == Point(parse(Tokens(lines[k])[0]).value, parse(Tokens(lines[k])[1]).value)
    {
      assert FormatChecker.LineAccepted(lines[k], parse);
      TokensAreWords(lines[k]);
    }
    ConvertsLineByLine(content, parse);
  }

  /** Content that ends with a line break fails to convert: its last line has no tokens. */
  lemma TrailingNewlineFails(content: string, parse: string -> Option<real>)
    requires |content| > 0 && content[|content| - 1] == '\n'
    ensures SimpleXY(content, parse) == Err(IndexOutOfRange)
  {
    var lines := Split(content, '\n');
    SplitLastEmpty(content, '\n');
    assert Words(lines[|lines| - 1]) == [];
  }
}
