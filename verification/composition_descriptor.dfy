/** The form side of the "Play Composition(s)" step (`TestCompositionRunner.DescriptorImpl`):
    the checks run on the composition and maximum-age fields, and the autocompletion of
    composition names from the output of `scommand list type=composition`. */
module CompositionDescriptor {
  import opened Wrappers
  import opened JavaStrings
  import opened JavaLines
  import opened ArgumentList
  import opened CloudTestServers

  /** `FormValidation.ok()` (`Valid`) or `FormValidation.error(message)` (`Invalid`). */
  datatype FormValidation = Valid | Invalid(message: string)

  const CompositionRequired: string := "Composition name is required."
  const DaysRequired: string := "Days to keep results is required."
  const DaysNotPositive: string := "Value must be > 0."
  const DaysNotNumeric: string := "Value must be numeric."

  /** `doCheckComposition`: an error exactly when the value is `null` or made only of
      characters `trim()` removes. */
  function CheckComposition(value: Option<string>): (v: FormValidation)
    ensures v.Invalid? <==> value.None? || AllTrimmed(value.value)
    ensures v.Invalid? ==> v.message == CompositionRequired
  {
    match value
    case None => Invalid(CompositionRequired)
    case Some(s) =>
      BlankIff(s);
      if IsBlank(s) then Invalid(CompositionRequired) else Valid
  }

  /** `doCheckMaxDaysOfResults`: a `null` or blank value is required; otherwise the value
      itself (untrimmed) must parse as an `int`, and that `int` must be positive. */
  function CheckMaxDaysOfResults(value: Option<string>): (v: FormValidation)
    ensures v.Valid? <==> value.Some? && ParseInt(value.value).Some? && ParseInt(value.value).value > 0
    ensures v == Invalid(DaysRequired) <==> value.None? || AllTrimmed(value.value)
    ensures v == Invalid(DaysNotNumeric) <==> value.Some? && !AllTrimmed(value.value) && ParseInt(value.value).None?
    ensures v == Invalid(DaysNotPositive) <==> value.Some? && ParseInt(value.value).Some? && ParseInt(value.value).value <= 0
  {
    match value
    case None => Invalid(DaysRequired)
    case Some(s) =>
      BlankIff(s);
      if IsBlank(s) then Invalid(DaysRequired)
      else
        match ParseInt(s)
        case None => Invalid(DaysNotNumeric)
        case Some(days) =>
          ParsedIsNotBlank(s);
          if days <= 0 then Invalid(DaysNotPositive) else Valid
  }

  /** A number with blanks around it is not blank, yet `parseInt` refuses it: the check reports
      it as not numeric rather than trimming it. */
  lemma {:induction false} PaddedNumberIsNotNumeric()
    ensures CheckMaxDaysOfResults(Some(" 5")) == Invalid(DaysNotNumeric)
  {
    var s := " 5";
    assert !AllTrimmed(s) by { assert !IsTrimmed(s[1]); }
    assert ParseInt(s).None? by { assert !AllDigits(s) by { assert !IsDigit(s[0]); } }
  }

  /** `"5"` is accepted and `"0"` is refused as not positive. */
  lemma {:induction false} SmallNumbers()
    ensures CheckMaxDaysOfResults(Some("5")) == Valid
    ensures CheckMaxDaysOfResults(Some("0")) == Invalid(DaysNotPositive)
  {
    assert "5"[..0] == "" && "0"[..0] == "";
    assert ParseInt("5") == Some(5);
    assert ParseInt("0") == Some(0);
  }

  // ---------------------------------------------------------------------------
  // Autocompletion of composition names
  // ---------------------------------------------------------------------------

  /** The summary line SCommand ends a listing with, such as `3 object(s) found.`. */
  const SummarySuffix: string := "object(s) found."

  /** The listing command line for server `s`, given the installed SCommand path: only the
      password token, present when the server has a password, is masked. */
  function ListArgs(scommand: string, s: Server): (args: seq<Arg>)
    ensures |args| == (if s.password.Some? then 6 else 5)
    ensures args[..5] == PlainAll([scommand, "list", "type=composition", "url=" + s.url, "username=" + s.username])
    ensures s.password.Some? ==> args[5] == Masked("password=" + s.password.value)
    ensures forall i :: 0 <= i < |args| ==> (args[i].masked <==> i == 5)
  {
    PlainAll([scommand, "list", "type=composition", "url=" + s.url, "username=" + s.username])
    + (if s.password.Some? then [Masked("password=" + s.password.value)] else [])
  }

  /** The listing command line carries the server's URL, user name and password (if any)
      in full: two servers get the same command line exactly when they agree on all three. */
  lemma {:induction false} ListArgsNameServer(scommand: string, s1: Server, s2: Server)
    ensures ListArgs(scommand, s1) == ListArgs(scommand, s2)
            <==> s1.url == s2.url && s1.username == s2.username && s1.password == s2.password
  {
    var a1, a2 := ListArgs(scommand, s1), ListArgs(scommand, s2);
    if a1 == a2 {
      assert a1[3] == a2[3] && a1[4] == a2[4];
      assert s1.url == ("url=" + s1.url)[4..] == ("url=" + s2.url)[4..] == s2.url;
      assert s1.username == ("username=" + s1.username)[9..] == ("username=" + s2.username)[9..] == s2.username;
      if s1.password.Some? {
        assert a1[5] == a2[5];
        assert s1.password.value == ("password=" + s1.password.value)[9..];
        assert s2.password.value == ("password=" + s2.password.value)[9..];
      }
    }
  }

  /** `a` is `b` with some elements left out, the rest kept in order. */
  predicate IsSubsequence(a: seq<string>, b: seq<string>)
    decreases |b|
  {
    |a| == 0 || (|b| > 0 && ((a[0] == b[0] && IsSubsequence(a[1..], b[1..])) || IsSubsequence(a, b[1..])))
  }

  /** The listing lines that are not summary lines (what they keep is `DropSummariesCounts`
      and `DropSummariesInOrder`). */
  function DropSummaries(lines: seq<string>): seq<string>
  {
    if |lines| == 0 then []
    else (if EndsWith(lines[0], SummarySuffix) then [] else [lines[0]]) + DropSummaries(lines[1..])
  }

  /** Every line that is not a summary line is kept as often as it occurs, and no summary line
      is kept. */
  lemma {:induction false} DropSummariesCounts(lines: seq<string>)
    ensures forall l :: multiset(DropSummaries(lines))[l] == (if EndsWith(l, SummarySuffix) then 0 else multiset(lines)[l])
    decreases |lines|
  {
    if |lines| > 0 {
      DropSummariesCounts(lines[1..]);
      assert lines == [lines[0]] + lines[1..];
    }
  }

  /** The kept lines appear in the order of the listing. */
  lemma {:induction false} DropSummariesInOrder(lines: seq<string>)
    ensures IsSubsequence(DropSummaries(lines), lines)
    decreases |lines|
  {
    if |lines| > 0 {
      DropSummariesInOrder(lines[1..]);
      var rest := DropSummaries(lines[1..]);
      if !EndsWith(lines[0], SummarySuffix) {
        assert ([lines[0]] + rest)[1..] == rest;
      } else {
        assert DropSummaries(lines) == [] + rest == rest;
      }
    }
  }

  /** The candidates offered: none unless the listing exited with 0, else its lines read one
      by one, without the summary lines. */
  function Candidates(exitCode: int, output: string): (r: seq<string>)
    ensures exitCode != 0 ==> r == []
    ensures exitCode == 0 ==> r == DropSummaries(ReadLines(output))
    ensures forall l :: l in r ==> !EndsWith(l, SummarySuffix) && BreakFree(l)
  {
    if exitCode == 0 then
      var r := DropSummaries(ReadLines(output));
      DropSummariesCounts(ReadLines(output));
      assert forall l :: l in r ==> multiset(r)[l] > 0;
      assert forall l :: l in r ==> l in ReadLines(output);
      r
    else []
  }

  /** What an autocompletion request does: the listing it launches and the candidates it
      returns. */
  datatype AutoCompletion = AutoCompletion(listArgs: seq<Arg>, candidates: seq<string>)

  /** The ID names no configured server: the `null` server is dereferenced. */
  datatype AutoCompleteError = NoServerForId(id: Option<string>)

  /** `doAutoCompleteComposition(cloudTestServerID)`, given the installed SCommand path and the
      exit code and output of the listing it launches. */
  function AutoCompleteComposition(reg: Registry, serverId: Option<string>, scommand: string,
                                   exitCode: int, output: string): (res: Result<AutoCompletion, AutoCompleteError>)
    ensures res.Err? <==> serverId !in reg.byId
    ensures res.Ok? ==> res.value.listArgs == ListArgs(scommand, reg.byId[serverId])
    ensures res.Ok? ==> res.value.candidates == Candidates(exitCode, output)
  {
    match GetById(reg, serverId)
    case None => Err(NoServerForId(serverId))
    case Some(s) => Ok(AutoCompletion(ListArgs(scommand, s), Candidates(exitCode, output)))
  }

  /** Listing output written as names and then summary lines, each ended by LF, CR or CRLF,
      and then an optional unterminated last line, autocompletes to exactly the names in
      order, followed by the last line unless it is empty or a summary. */
  lemma {:induction false} CandidatesOfListing(names: seq<string>, summaries: seq<string>, terms: seq<string>,
                                               last: string)
    requires forall k :: 0 <= k < |names| ==> BreakFree(names[k]) && !EndsWith(names[k], SummarySuffix)
    requires forall k :: 0 <= k < |summaries| ==> BreakFree(summaries[k]) && EndsWith(summaries[k], SummarySuffix)
    requires |terms| == |names| + |summaries|
    requires forall k :: 0 <= k < |terms| ==> IsTerminator(terms[k])
    requires Separable(names + summaries, terms)
    requires BreakFree(last)
    ensures Candidates(0, Terminated(names + summaries, terms) + last)
            == names + (if last == "" || EndsWith(last, SummarySuffix) then [] else [last])
  {
    var lines := names + summaries;
    forall k | 0 <= k < |lines|
      ensures BreakFree(lines[k]) && IsTerminator(terms[k])
    {
      if k >= |names| {
        assert lines[k] == summaries[k - |names|];
      }
    }
    ReadLinesOfTerminated(lines, terms, last);
    var extra := if last == "" then [] else [last];
    assert lines + extra == names + (summaries + extra);
    DropSummariesKeeps(names, summaries + extra);
    DropSummariesSkips(summaries, extra);
    DropSummariesCons(last, []);
    assert DropSummaries([]) == [];
    assert [last] + [] == [last];
  }

  lemma {:induction false} DropOnlySummaries(names: seq<string>, summaries: seq<string>)
    requires forall k :: 0 <= k < |names| ==> !EndsWith(names[k], SummarySuffix)
    requires forall k :: 0 <= k < |summaries| ==> EndsWith(summaries[k], SummarySuffix)
    ensures DropSummaries(names + summaries) == names
  {
    DropSummariesKeeps(names, summaries);
    DropSummariesOfSummaries(summaries);
  }

  /** The first line is kept unless it is a summary; the rest are filtered the same way. */
  lemma {:induction false} DropSummariesCons(l: string, rest: seq<string>)
    ensures DropSummaries([l] + rest) == (if EndsWith(l, SummarySuffix) then [] else [l]) + DropSummaries(rest)
  {
    var lines := [l] + rest;
    assert lines[0] == l && lines[1..] == rest;
  }

  /** Lines that are not summaries are all kept, ahead of whatever the rest keeps. */
  lemma {:induction false} DropSummariesKeeps(names: seq<string>, rest: seq<string>)
    requires forall k :: 0 <= k < |names| ==> !EndsWith(names[k], SummarySuffix)
    ensures DropSummaries(names + rest) == names + DropSummaries(rest)
    decreases |names|
  {
    if |names| > 0 {
      var tail := names[1..] + rest;
      assert names + rest == [names[0]] + tail;
      DropSummariesCons(names[0], tail);
      DropSummariesKeeps(names[1..], rest);
      assert [names[0]] + (names[1..] + DropSummaries(rest)) == names + DropSummaries(rest);
    } else {
      assert names + rest == rest;
    }
  }

  /** Summary lines in front are all dropped, leaving what the rest keeps. */
  lemma {:induction false} DropSummariesSkips(summaries: seq<string>, rest: seq<string>)
    requires forall k :: 0 <= k < |summaries| ==> EndsWith(summaries[k], SummarySuffix)
    ensures DropSummaries(summaries + rest) == DropSummaries(rest)
    decreases |summaries|
  {
    if |summaries| > 0 {
      assert summaries + rest == [summaries[0]] + (summaries[1..] + rest);
      DropSummariesCons(summaries[0], summaries[1..] + rest);
      DropSummariesSkips(summaries[1..], rest);
    } else {
      assert summaries + rest == rest;
    }
  }

  /** Summary lines are all dropped. */
  lemma {:induction false} DropSummariesOfSummaries(summaries: seq<string>)
    requires forall k :: 0 <= k < |summaries| ==> EndsWith(summaries[k], SummarySuffix)
    ensures DropSummaries(summaries) == []
    decreases |summaries|
  {
    if |summaries| > 0 {
      DropSummariesOfSummaries(summaries[1..]);
    }
  }
}
