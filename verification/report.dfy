/**
  Delivery of the results by count: a notice when there are none, the paths
  on the console when there are fewer than 25, and otherwise a results file
  whose text is a header followed by one path per line.
 */
module Report {
  import opened Optional
  import opened Strings

  /** From this many results on, they go to the output file. */
  const ConsoleLimit: nat := 25

  const NoResultsNotice: string := "Search returned no results..."

  /** The first line of the results file and the blank line after it. */
  const Header: string := "RESULTS:\n\n"

  /** What the script shows or writes for one search. */
  datatype Output =
    | Notice(text: string)                     // printed alone
    | Console(lines: seq<string>)              // printed one per line
    | ToFile(notice: string, content: string)  // notice printed, content written to the output file

  /** The notice naming the output file. */
  function FileNotice(outputFile: string): string
  {
    "25+ results were returned. Writing results to \"" + outputFile + "\""
  }

  /** Each result followed by a newline, in order. */
  function Lines(results: seq<string>): string
  {
    if results == [] then "" else results[0] + "\n" + Lines(results[1..])
  }

  /** The text written to the output file: the header, then the results
      joined by newlines with a final newline after the last one. */
  function FileContent(results: seq<string>): (s: string)
    ensures Header <= s
    ensures s == Header + Join(results + [""], '\n')
  {
    LinesJoin(results);
    Header + Lines(results)
  }

  /** Reading a results file back: the lines after the header, provided the
      text ends with a newline. */
  function ReadResults(content: string): Option<seq<string>>
  {
    if Header <= content then
      var parts := Split(content[|Header|..], '\n');
      if parts[|parts| - 1] == "" then Some(parts[..|parts| - 1]) else None
    else None
  }

  ghost predicate NoNewlines(results: seq<string>)
  {
    forall i :: 0 <= i < |results| ==> '\n' !in results[i]
  }

  lemma {:induction false} LinesJoin(results: seq<string>)
    ensures Lines(results) == Join(results + [""], '\n')
    decreases |results|
  {
    if results != [] {
      LinesJoin(results[1..]);
      var xs := results + [""];
      assert xs[0] == results[0];
      assert xs[1..] == results[1..] + [""];
    }
  }

  /** The results file holds exactly the results, in order, whenever no result
      contains a newline. */
  lemma FileContentRoundTrip(results: seq<string>)
    requires NoNewlines(results)
    ensures ReadResults(FileContent(results)) == Some(results)
  {
    var content := FileContent(results);
    assert content[|Header|..] == Lines(results);
    LinesJoin(results);
    var xs := results + [""];
    assert forall i :: 0 <= i < |xs| ==> '\n' !in xs[i];
    SplitJoin(xs, '\n');
    assert xs[..|xs| - 1] == results;
  }

  /** The routing of lines 178-196. */
  function Route(results: seq<string>, outputFile: string): (o: Output)
    ensures o.Notice? <==> |results| == 0
    ensures o.Notice? ==> o.text == NoResultsNotice
    ensures o.Console? <==> 0 < |results| < ConsoleLimit
    ensures o.ToFile? <==> |results| >= ConsoleLimit
    ensures o.Console? ==> o.lines == results
    ensures o.ToFile? ==> Header <= o.content && o.notice == FileNotice(outputFile)
    ensures o.ToFile? ==> o.content == FileContent(results)
    ensures o.ToFile? && NoNewlines(results) ==> ReadResults(o.content) == Some(results)
  {
    if |results| <= 0 then Notice(NoResultsNotice)
    else if |results| < ConsoleLimit then Console(results)
    else
      ContentReadsBack(results);
      ToFile(FileNotice(outputFile), FileContent(results))
  }

  lemma ContentReadsBack(results: seq<string>)
    ensures NoNewlines(results) ==> ReadResults(FileContent(results)) == Some(results)
  {
    if NoNewlines(results) {
      FileContentRoundTrip(results);
    }
  }
}
