/** The line view of a text file: `File.WriteAllLines` ends every line with
    the Windows newline "\r\n", and `File.ReadAllLines` cuts the text at
    "\r\n", "\r" or "\n". Both stores of the account manager (the account
    registry and the Sandboxie ini file) go through this pair, which is why
    the rest of the model treats a file as its sequence of lines.
 */
module TextFile {

  predicate IsLineBreak(c: char) {
    c == '\r' || c == '\n'
  }

  predicate HasNoLineBreak(line: string) {
    forall i :: 0 <= i < |line| ==> !IsLineBreak(line[i])
  }

  /** `Environment.NewLine` on Windows. */
  const NewLine: string := "\r\n"

  /** `File.WriteAllLines`: each line followed by a newline. */
  function WriteAllLines(lines: seq<string>): (text: string)
    ensures |lines| == 0 <==> |text| == 0
  {
    if |lines| == 0 then "" else lines[0] + NewLine + WriteAllLines(lines[1..])
  }

  /** The position of the first line-break character, or `|text|` if none. */
  function LineEnd(text: string): (k: nat)
    ensures k <= |text|
    ensures forall i :: 0 <= i < k ==> !IsLineBreak(text[i])
    ensures k < |text| ==> IsLineBreak(text[k])
  {
    if |text| == 0 || IsLineBreak(text[0]) then 0 else 1 + LineEnd(text[1..])
  }

  /** Where the next line starts once a line ends at `k`: past a "\r\n" pair,
      or past a single "\r" or "\n". */
  function NextLineStart(text: string, k: nat): (next: nat)
    requires k <= |text|
    ensures k == |text| ==> next == k
    ensures k < |text| ==> k < next <= |text|
  {
    if k == |text| then k
    else if text[k] == '\r' && k + 1 < |text| && text[k + 1] == '\n' then k + 2
    else k + 1
  }

  /** `File.ReadAllLines`: no line it returns holds a line break, and a final
      newline does not produce an extra empty line. */
  function ReadAllLines(text: string): (lines: seq<string>)
    ensures forall j :: 0 <= j < |lines| ==> HasNoLineBreak(lines[j])
    ensures |lines| <= |text|
    decreases |text|
  {
    if |text| == 0 then []
    else
      var k := LineEnd(text);
      [text[..k]] + ReadAllLines(text[NextLineStart(text, k)..])
  }

  /** A line with no break, followed by a newline, ends exactly where it should. */
  lemma LineEndOfLine(line: string, rest: string)
    requires HasNoLineBreak(line)
    ensures LineEnd(line + NewLine + rest) == |line|
    ensures NextLineStart(line + NewLine + rest, |line|) == |line| + 2
  {
  }

  /** Writing break-free lines and reading them back gives the same lines. */
  lemma {:induction false} ReadAfterWrite(lines: seq<string>)
    requires forall j :: 0 <= j < |lines| ==> HasNoLineBreak(lines[j])
    ensures ReadAllLines(WriteAllLines(lines)) == lines
  {
    if |lines| > 0 {
      var rest := WriteAllLines(lines[1..]);
      var text := WriteAllLines(lines);
      assert text == lines[0] + NewLine + rest;
      LineEndOfLine(lines[0], rest);
      assert text[..|lines[0]|] == lines[0];
      assert text[|lines[0]| + 2..] == rest;
      ReadAfterWrite(lines[1..]);
      assert lines == [lines[0]] + lines[1..];
    }
  }
}
