/** Concrete runs of the model: a two-composition field with cleanup on, a field that begins
    with a line break, the delete command line for a 30-day limit, and a listing with its
    summary line. */
module Scenarios {
  import opened Wrappers
  import opened JavaStrings
  import opened JavaLines
  import opened ArgumentList
  import opened TestCompositionRunner
  import opened CompositionPlay
  import opened CompositionDescriptor

  const CompA: string := "Folder/CompA"
  const CompB: string := "Folder/CompB"

  lemma {:induction false} TwoNamesBreakFree()
    ensures BreakFree(CompA) && BreakFree(CompB)
  {
  }

  /** A field holding two names on two lines splits into those two names. */
  lemma {:induction false} TwoLinesSplit()
    ensures SplitLines(CompA + "\n" + CompB) == [CompA, CompB]
  {
    var xs := [CompA, CompB];
    TwoNamesBreakFree();
    assert JoinWith(xs, ["\n"]) + "" == CompA + "\n" + CompB by {
      assert xs[1..] == [CompB];
    }
    SplitOfJoinWith(xs, ["\n"], "");
  }

  /** A field posted with CRLF line ends splits into the same names, and a trailing blank
      line adds nothing. */
  lemma {:induction false} CrLfSplit()
    ensures SplitLines(CompA + "\r\n" + CompB) == [CompA, CompB]
    ensures SplitLines(CompA + "\r\n" + CompB + "\r\n\r\n") == [CompA, CompB]
  {
    var xs := [CompA, CompB];
    var seps := ["\r\n"];
    TwoNamesBreakFree();
    assert JoinWith(xs, seps) == CompA + "\r\n" + CompB by {
      assert xs[1..] == [CompB];
    }
    assert AllBreaks("\r\n") && AllBreaks("\r\n\r\n") && AllBreaks("");
    SplitOfJoinWith(xs, seps, "");
    SplitOfJoinWith(xs, seps, "\r\n\r\n");
    assert CompA + "\r\n" + CompB + "" == CompA + "\r\n" + CompB;
  }

  /** With two names on two lines, cleanup on for 30 days and no empty result, the step plays
      A, deletes A's old results, plays B, deletes B's, and archives. */
  lemma {:induction false} TwoCompositionsWithCleanup(ctx: BuildContext, emptyOutput: nat -> bool)
    requires forall s :: ctx.expand(s) == s
    requires !emptyOutput(0) && !emptyOutput(1)
    ensures
      var r := SetDeleteOldResultsSettings(NewRunner(Some("server-1"), CompA + "\n" + CompB),
                                           Some(DeleteOldResultsSettings(30)));
      var x := Perform(r, ctx, emptyOutput);
      && PlayNames(x.trace) == [CompA, CompB]
      && DeleteNames(x.trace) == [CompA, CompB]
      && x.archivePattern == Some(ResultsPattern)
  {
    var r := SetDeleteOldResultsSettings(NewRunner(Some("server-1"), CompA + "\n" + CompB),
                                         Some(DeleteOldResultsSettings(30)));
    TwoLinesSplit();
    assert Compositions(r, ctx) == [CompA, CompB];
    PerformPlaysEveryComposition(r, ctx, emptyOutput);
  }

  /** A field that starts with a line break yields an empty first name, which is played like
      any other. */
  lemma {:induction false} LeadingBreakGivesEmptyName()
    ensures SplitLines("\nA") == ["", "A"]
  {
    var xs := ["", "A"];
    assert JoinWith(xs, ["\n"]) + "" == "\nA" by {
      assert xs[1..] == ["A"];
    }
    SplitOfJoinWith(xs, ["\n"], "");
  }

  /** The delete command for a 30-day limit ends with `maxage=30`. */
  lemma {:induction false} DeleteAfterThirtyDays(ctx: BuildContext)
    ensures DeleteArgs(ctx, CompA, 30)[|ctx.scommandArgs| + 3] == Plain("maxage=30")
  {
    assert NatToDigits(30) == "30" by {
      assert NatToDigits(3) == "3";
    }
  }

  /** A composition path with a leading slash is stored without it. */
  lemma {:induction false} LeadingSlashResultFile()
    ensures ResultFile("/", "/Folder/CompA") == ResultsDir + "/Folder/CompA.xml"
  {
    ResultFileShape("/", "/Folder/CompA");
    assert StartsWith("/Folder/CompA", "/");
    assert StripOneSlash("/Folder/CompA") == "Folder/CompA";
    assert "/" + "Folder/CompA" + ".xml" == "/Folder/CompA.xml";
    assert ResultsDir + "/" + "Folder/CompA" + ".xml" == ResultsDir + ("/" + "Folder/CompA" + ".xml");
  }

  /** A listing of two names, the first ended by CRLF and the second by LF, followed by its
      summary line without a terminator, offers the two names. */
  lemma {:induction false} ListingOffersNames()
    ensures Candidates(0, CompA + "\r\n" + CompB + "\n" + "2 object(s) found.") == [CompA, CompB]
  {
    var summary := "2 object(s) found.";
    var names, terms := [CompA, CompB], ["\r\n", "\n"];
    TwoNamesBreakFree();
    assert EndsWith(summary, SummarySuffix) by {
      assert summary[|summary| - |SummarySuffix|..] == SummarySuffix;
    }
    assert Terminated(names + [], terms) + summary == CompA + "\r\n" + CompB + "\n" + summary by {
      assert names + [] == names;
      assert names[1..] == [CompB] && terms[1..] == ["\n"];
      assert Terminated([CompB], ["\n"]) == CompB + "\n" + Terminated([], []);
    }
    CandidatesOfListing(names, [], terms, summary);
  }
}
