/** Records as `csv.reader` yields them for unquoted input: each line of the
    file, without its line terminator, split on the delimiter; a line with
    nothing before its terminator yields the empty record. */
module Csv {
  import opened Seqs
  import opened Text

  /** The two field delimiters the loader knows. */
  datatype Delim = Tab | Comma

  function DelimChar(d: Delim): char {
    match d
    case Tab => '\t'
    case Comma => ','
  }

  /** The line without one trailing "\r\n", "\n" or "\r". */
  function StripTerminator(line: string): (r: string)
    ensures line == r || line == r + "\n" || line == r + "\r" || line == r + "\r\n"
    ensures forall i :: |r| <= i < |line| ==> line[i] == '\n' || line[i] == '\r'
    ensures line != [] && (line[|line| - 1] == '\n' || line[|line| - 1] == '\r') ==> |r| < |line|
    ensures EndsWith(line, "\r\n") ==> |r| == |line| - 2
  {
    if EndsWith(line, "\r\n") then line[..|line| - 2]
    else if line != [] && (line[|line| - 1] == '\n' || line[|line| - 1] == '\r') then line[..|line| - 1]
    else line
  }

  /** The record `csv.reader` yields for one line. */
  function ParseRecord(line: string, d: Delim): (r: seq<string>)
    ensures |r| == 0 <==> StripTerminator(line) == []
    ensures |r| > 0 ==> Join(r, DelimChar(d)) == StripTerminator(line)
    ensures |r| > 0 ==> |r| == Occurrences(StripTerminator(line), DelimChar(d)) + 1
  {
    var body := StripTerminator(line);
    if body == [] then []
    else
      SplitJoin(body, DelimChar(d));
      Split(body, DelimChar(d))
  }

  /** The records of a whole file, one per line. */
  function Records(lines: seq<string>, d: Delim): (r: seq<seq<string>>)
    ensures |r| == |lines|
    ensures forall i :: 0 <= i < |lines| ==> r[i] == ParseRecord(lines[i], d)
  {
    seq(|lines|, i requires 0 <= i < |lines| => ParseRecord(lines[i], d))
  }

  /** A line that is not all whitespace yields a record with at least one
      field, whichever delimiter is used. */
  lemma NonBlankLineHasFields(line: string, d: Delim)
    ensures |Strip(line)| > 0 ==> |ParseRecord(line, d)| > 0
  {
    if StripTerminator(line) == [] {
      assert forall i :: 0 <= i < |line| ==> IsSpace(line[i]);
      StripEmptyIffBlank(line);
    }
  }
}
