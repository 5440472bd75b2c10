/** FormatChecker.SimpleXY (TSP/InputVerification/FormatChecker.cs), from the file content
    on: the content is split on '\n', and every line must tokenise to exactly two numbers.
    `double.TryParse` is the parameter `parse`. */
module FormatChecker {
  import opened Results
  import opened Text

  /** The check of one line: exactly two tokens, both numbers. */
  predicate LineAccepted(line: string, parse: string -> Option<real>) {
    var numbers := Tokens(line);
    |numbers| == 2 && parse(numbers[0]).Some? && parse(numbers[1]).Some?
  }

  /** The `foreach` over the lines from `i` on: false at the first rejected line. */
  function CheckLines(lines: seq<string>, i: nat, parse: string -> Option<real>): (ok: bool)
    requires i <= |lines|
    ensures ok <==> forall k :: i <= k < |lines| ==> LineAccepted(lines[k], parse)
    decreases |lines| - i
  {
    if i == |lines| then true
    else if !LineAccepted(lines[i], parse) then false
    else CheckLines(lines, i + 1, parse)
  }

  /** `SimpleXY(text, maxNumberOfLines)` on the content of `text`. */
  function SimpleXY(content: string, maxNumberOfLines: int, parse: string -> Option<real>): (ok: bool)
    ensures ok ==> Count(content, '\n') < maxNumberOfLines
    ensures ok <==> && |Split(content, '\n')| <= maxNumberOfLines
                    && forall k :: 0 <= k < |Split(content, '\n')| ==> LineAccepted(Split(content, '\n')[k], parse)
  {
    var lines := Split(content, '\n');
    if |lines| > maxNumberOfLines then false
    else CheckLines(lines, 0, parse)
  }

  /** A line is accepted exactly when it holds two words, both numbers: how much white space
      surrounds or separates them does not matter. */
  lemma LineAcceptedIffTwoWords(line: string, parse: string -> Option<real>)
    ensures LineAccepted(line, parse)
            <==> |Words(line)| == 2 && parse(Words(line)[0]).Some? && parse(Words(line)[1]).Some?
  {
    TokensAreWords(line);
  }

  /** Padding a line with white space does not change its verdict. */
  lemma PaddingKeepsVerdict(front: string, line: string, back: string, parse: string -> Option<real>)
    requires AllWhiteSpace(front) && AllWhiteSpace(back)
    ensures LineAccepted(front + line + back, parse) <==> LineAccepted(line, parse)
  {
    TokensPadded(front, line, back);
  }

  /** Two numbers separated by any white space make an accepted line. */
  lemma PairAccepted(x: string, gap: string, y: string, parse: string -> Option<real>)
    requires IsWord(x) && IsWord(y) && |gap| > 0 && AllWhiteSpace(gap)
    requires parse(x).Some? && parse(y).Some?
    ensures LineAccepted(x + gap + y, parse)
  {
    TokensOfPair(x, gap, y);
  }

  /** A blank line is rejected, and with it the whole content. */
  lemma BlankLineRejected(content: string, maxNumberOfLines: int, parse: string -> Option<real>, k: nat)
    requires k < |Split(content, '\n')| && AllWhiteSpace(Split(content, '\n')[k])
    ensures !SimpleXY(content, maxNumberOfLines, parse)
  {
    TokensOfBlank(Split(content, '\n')[k]);
  }

  /** Empty content is one blank line, so it is rejected. */
  lemma EmptyRejected(maxNumberOfLines: int, parse: string -> Option<real>)
    ensures !SimpleXY("", maxNumberOfLines, parse)
  {
    BlankLineRejected("", maxNumberOfLines, parse, 0);
  }

  /** Content that ends with a line break has an empty last line, so it is rejected. */
  lemma TrailingNewlineRejected(content: string, maxNumberOfLines: int, parse: string -> Option<real>)
    requires |content| > 0 && content[|content| - 1] == '\n'
    ensures !SimpleXY(content, maxNumberOfLines, parse)
  {
    SplitLastEmpty(content, '\n');
    BlankLineRejected(content, maxNumberOfLines, parse, |Split(content, '\n')| - 1);
  }
}
