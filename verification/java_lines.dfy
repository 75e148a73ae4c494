/** Two ways the builders cut text into lines:
    - `String.split("[\r\n]+")`, used on the composition field: the text is cut at every
      maximal run of CR and LF characters, a leading empty piece is kept, trailing empty
      pieces are dropped, and a text with no line break at all is returned whole (so `""`
      gives `[""]`);
    - `BufferedReader.readLine()` repeated until it returns `null`, used on the output of
      the composition listing: lines end at `"\n"`, `"\r"` or `"\r\n"`, and a final line
      without a terminator still counts when it is not empty. */
module JavaLines {

  predicate IsBreak(c: char)
  {
    c == '\r' || c == '\n'
  }

  predicate BreakFree(s: string)
  {
    forall i :: 0 <= i < |s| ==> !IsBreak(s[i])
  }

  /** Index of the first line break in `s`, or `|s|` when there is none. */
  function FirstBreak(s: string): (i: nat)
    ensures i <= |s|
    ensures forall j :: 0 <= j < i ==> !IsBreak(s[j])
    ensures i < |s| ==> IsBreak(s[i])
  {
    if |s| == 0 || IsBreak(s[0]) then 0 else 1 + FirstBreak(s[1..])
  }

  /** Length of the run of line breaks that `s` starts with. */
  function BreakRun(s: string): (n: nat)
    ensures n <= |s|
    ensures forall j :: 0 <= j < n ==> IsBreak(s[j])
    ensures n < |s| ==> !IsBreak(s[n])
  {
    if |s| == 0 || !IsBreak(s[0]) then 0 else 1 + BreakRun(s[1..])
  }

  lemma {:induction false} FirstBreakOfBreakFree(s: string)
    requires BreakFree(s)
    ensures FirstBreak(s) == |s|
  {
  }

  /** The text between the maximal runs of line breaks of `s`, before any trailing empty
      piece is dropped. */
  function Pieces(s: string): (r: seq<string>)
    ensures |r| > 0
    ensures forall k :: 0 <= k < |r| ==> BreakFree(r[k])
    ensures |s| > 0 && !IsBreak(s[0]) ==> r[0] != ""
    ensures forall k :: 0 < k < |r| - 1 ==> r[k] != ""
    decreases |s|
  {
    var i := FirstBreak(s);
    if i == |s| then [s]
    else
      var j := i + BreakRun(s[i..]);
      [s[..i]] + Pieces(s[j..])
  }

  /** `xs` without its trailing empty strings. */
  function DropTrailingEmpty(xs: seq<string>): (r: seq<string>)
    ensures |r| <= |xs| && r == xs[..|r|]
    ensures forall k :: |r| <= k < |xs| ==> xs[k] == ""
    ensures |r| > 0 ==> r[|r| - 1] != ""
  {
    if |xs| > 0 && xs[|xs| - 1] == "" then DropTrailingEmpty(xs[..|xs| - 1]) else xs
  }

  /** `s.split("[\r\n]+")`. */
  function SplitLines(s: string): (r: seq<string>)
    ensures forall k :: 0 <= k < |r| ==> BreakFree(r[k])
    ensures forall k :: 0 < k < |r| ==> r[k] != ""
  {
    if FirstBreak(s) == |s| then [s] else DropTrailingEmpty(Pieces(s))
  }

  // ---------------------------------------------------------------------------
  // Joining, flattening and removing line breaks: partners of SplitLines
  // ---------------------------------------------------------------------------

  /** All the strings of `xs`, one after the other. */
  function Concat(xs: seq<string>): string
  {
    if |xs| == 0 then "" else xs[0] + Concat(xs[1..])
  }

  /** `s` with every CR and LF character removed. */
  function RemoveBreaks(s: string): string
  {
    if |s| == 0 then "" else (if IsBreak(s[0]) then "" else [s[0]]) + RemoveBreaks(s[1..])
  }

  /** Every character of `s` is a line break. */
  predicate AllBreaks(s: string)
  {
    forall i :: 0 <= i < |s| ==> IsBreak(s[i])
  }

  /** The lines of `xs` with `seps[k]` between `xs[k]` and `xs[k + 1]`. */
  function JoinWith(xs: seq<string>, seps: seq<string>): string
    requires |xs| > 0 && |seps| == |xs| - 1
    decreases |xs|
  {
    if |xs| == 1 then xs[0] else xs[0] + seps[0] + JoinWith(xs[1..], seps[1..])
  }

  lemma {:induction false} JoinWithStartsWith(xs: seq<string>, seps: seq<string>)
    requires |xs| > 0 && |seps| == |xs| - 1
    ensures |xs[0]| <= |JoinWith(xs, seps)| && JoinWith(xs, seps)[..|xs[0]|] == xs[0]
  {
    if |xs| > 1 {
      var s := JoinWith(xs, seps);
      assert s == xs[0] + (seps[0] + JoinWith(xs[1..], seps[1..]));
    }
  }

  /** The break run at the front of `b + c`, when `b` is all breaks and `c` does not start
      with one, is `b`. */
  lemma {:induction false} BreakRunOfRun(b: string, c: string)
    requires AllBreaks(b)
    requires |c| > 0 ==> !IsBreak(c[0])
    ensures BreakRun(b + c) == |b|
  {
    assert forall j :: 0 <= j < |b| ==> (b + c)[j] == b[j];
    if |c| > 0 {
      assert (b + c)[|b|] == c[0];
    }
  }

  /** A break-free `a` followed by text that starts with a break has its first break right
      after `a`. */
  lemma {:induction false} FirstBreakAfter(a: string, b: string)
    requires BreakFree(a)
    requires |b| > 0 && IsBreak(b[0])
    ensures FirstBreak(a + b) == |a|
  {
    assert forall j :: 0 <= j < |a| ==> (a + b)[j] == a[j];
    assert (a + b)[|a|] == b[0];
  }

  /** One cut of `Pieces`: a break-free line, a run of breaks, then text that does not start
      with a break. */
  lemma {:induction false} PiecesStep(x: string, sep: string, rest: string)
    requires BreakFree(x)
    requires sep != "" && AllBreaks(sep)
    requires |rest| > 0 ==> !IsBreak(rest[0])
    ensures Pieces(x + sep + rest) == [x] + Pieces(rest)
  {
    var s := x + sep + rest;
    assert s == x + (sep + rest);
    FirstBreakAfter(x, sep + rest);
    BreakRunOfRun(sep, rest);
    assert s[..|x|] == x && s[|x|..] == sep + rest;
    assert s[|x| + |sep|..] == rest;
  }

  /** Lines joined by runs of breaks and followed by a run `tail` cut into the lines, plus
      one empty piece when `tail` is not empty. */
  lemma {:induction false} PiecesOfJoinWith(xs: seq<string>, seps: seq<string>, tail: string)
    requires |xs| > 0 && |seps| == |xs| - 1
    requires forall k :: 0 <= k < |xs| ==> BreakFree(xs[k])
    requires forall k :: 0 < k < |xs| ==> xs[k] != ""
    requires forall k :: 0 <= k < |seps| ==> seps[k] != "" && AllBreaks(seps[k])
    requires AllBreaks(tail)
    ensures Pieces(JoinWith(xs, seps) + tail) == xs + (if tail == "" then [] else [""])
    decreases |xs|
  {
    var x := xs[0];
    assert BreakFree(x);
    if |xs| == 1 {
      if tail == "" {
        assert JoinWith(xs, seps) + tail == x;
        FirstBreakOfBreakFree(x);
      } else {
        assert JoinWith(xs, seps) + tail == x + tail + "";
        PiecesStep(x, tail, "");
      }
    } else {
      forall k | 0 <= k < |xs| - 1
        ensures BreakFree(xs[1..][k]) && (k > 0 ==> xs[1..][k] != "")
      {
        assert xs[1..][k] == xs[k + 1];
      }
      forall k | 0 <= k < |seps| - 1
        ensures seps[1..][k] != "" && AllBreaks(seps[1..][k])
      {
        assert seps[1..][k] == seps[k + 1];
      }
      var rest := JoinWith(xs[1..], seps[1..]) + tail;
      JoinWithCons(xs, seps, tail);
      PiecesStep(x, seps[0], rest);
      PiecesOfJoinWith(xs[1..], seps[1..], tail);
      assert [x] + (xs[1..] + (if tail == "" then [] else [""])) == xs + (if tail == "" then [] else [""]);
    }
  }

  /** Two or more joined lines are the first line, the first separator, then the rest, which
      starts with the second line. */
  lemma {:induction false} JoinWithCons(xs: seq<string>, seps: seq<string>, tail: string)
    requires |xs| > 1 && |seps| == |xs| - 1
    requires BreakFree(xs[1]) && xs[1] != ""
    ensures
      var rest := JoinWith(xs[1..], seps[1..]) + tail;
      && JoinWith(xs, seps) + tail == xs[0] + seps[0] + rest
      && |rest| > 0 && !IsBreak(rest[0])
  {
    var rest := JoinWith(xs[1..], seps[1..]) + tail;
    JoinWithStartsWith(xs[1..], seps[1..]);
    assert rest[0] == xs[1][0];
  }

  /** Names separated by any non-empty runs of CR and LF (`"\r\n"` as a browser posts it,
      `"\n\n"`, ...) and followed by an optional run split back into exactly those names,
      provided no name holds a break and none after the first is empty; the one exception
      is a text of line breaks only, which splits into nothing. */
  lemma {:induction false} SplitOfJoinWith(xs: seq<string>, seps: seq<string>, tail: string)
    requires |xs| > 0 && |seps| == |xs| - 1
    requires forall k :: 0 <= k < |xs| ==> BreakFree(xs[k])
    requires forall k :: 0 < k < |xs| ==> xs[k] != ""
    requires forall k :: 0 <= k < |seps| ==> seps[k] != "" && AllBreaks(seps[k])
    requires AllBreaks(tail)
    ensures SplitLines(JoinWith(xs, seps) + tail) == if xs == [""] && tail != "" then [] else xs
  {
    var s := JoinWith(xs, seps) + tail;
    PiecesOfJoinWith(xs, seps, tail);
    if |xs| == 1 && tail == "" {
      assert s == xs[0];
      assert BreakFree(xs[0]);
      FirstBreakOfBreakFree(xs[0]);
    } else {
      JoinWithHasBreak(xs, seps, tail);
      DropTrailingEmptyOfLines(xs, tail != "");
    }
  }

  /** Two or more lines, or a line and a non-empty run, hold a line break. */
  lemma {:induction false} JoinWithHasBreak(xs: seq<string>, seps: seq<string>, tail: string)
    requires |xs| > 0 && |seps| == |xs| - 1
    requires BreakFree(xs[0])
    requires forall k :: 0 <= k < |seps| ==> seps[k] != "" && AllBreaks(seps[k])
    requires AllBreaks(tail)
    requires |xs| > 1 || tail != ""
    ensures FirstBreak(JoinWith(xs, seps) + tail) < |JoinWith(xs, seps) + tail|
  {
    var x := xs[0];
    if |xs| > 1 {
      var rest := JoinWith(xs[1..], seps[1..]) + tail;
      assert JoinWith(xs, seps) + tail == x + (seps[0] + rest);
      assert seps[0] != "" && AllBreaks(seps[0]);
      FirstBreakAfter(x, seps[0] + rest);
    } else {
      assert JoinWith(xs, seps) + tail == x + tail;
      FirstBreakAfter(x, tail);
    }
  }

  /** Dropping the trailing empty pieces of two or more lines, none empty after the first,
      or of lines followed by one extra empty piece, leaves the lines; a lone empty line goes
      too when the extra piece follows it. */
  lemma {:induction false} DropTrailingEmptyOfLines(xs: seq<string>, extra: bool)
    requires |xs| > 1 || (|xs| == 1 && extra)
    requires forall k :: 0 < k < |xs| ==> xs[k] != ""
    ensures DropTrailingEmpty(xs + (if extra then [""] else []))
            == if xs == [""] && extra then [] else xs
  {
    assert xs != [""] ==> xs[|xs| - 1] != "";
    if extra {
      var p := xs + [""];
      assert p[..|p| - 1] == xs;
      if xs == [""] {
        assert DropTrailingEmpty(xs) == DropTrailingEmpty([]);
      }
    } else {
      assert xs + [] == xs;
    }
  }

  lemma {:induction false} RemoveBreaksAppend(a: string, b: string)
    ensures RemoveBreaks(a + b) == RemoveBreaks(a) + RemoveBreaks(b)
    decreases |a|
  {
    if |a| > 0 {
      assert (a + b)[1..] == a[1..] + b;
      RemoveBreaksAppend(a[1..], b);
    } else {
      assert a + b == b;
    }
  }

  lemma {:induction false} RemoveBreaksOfBreakFree(a: string)
    requires BreakFree(a)
    ensures RemoveBreaks(a) == a
    decreases |a|
  {
    if |a| > 0 {
      RemoveBreaksOfBreakFree(a[1..]);
    }
  }

  lemma {:induction false} RemoveBreaksOfBreaks(a: string)
    requires forall i :: 0 <= i < |a| ==> IsBreak(a[i])
    ensures RemoveBreaks(a) == ""
    decreases |a|
  {
    if |a| > 0 {
      RemoveBreaksOfBreaks(a[1..]);
    }
  }

  lemma {:induction false} RemoveBreaksEmptyIff(a: string)
    ensures RemoveBreaks(a) == "" <==> forall i :: 0 <= i < |a| ==> IsBreak(a[i])
    decreases |a|
  {
    if |a| > 0 {
      RemoveBreaksEmptyIff(a[1..]);
      if RemoveBreaks(a) == "" {
        forall i | 0 <= i < |a|
          ensures IsBreak(a[i])
        {
          if i > 0 {
            assert a[i] == a[1..][i - 1];
          }
        }
      }
    }
  }

  lemma {:induction false} RemoveBreaksOfThree(a: string, b: string, c: string)
    requires BreakFree(a)
    requires forall t :: 0 <= t < |b| ==> IsBreak(b[t])
    ensures RemoveBreaks(a + b + c) == a + RemoveBreaks(c)
  {
    RemoveBreaksOfBreakFree(a);
    RemoveBreaksOfBreaks(b);
    RemoveBreaksAppend(a, b);
    RemoveBreaksAppend(a + b, c);
  }

  lemma {:induction false} RemoveBreaksAroundRun(s: string, i: nat, j: nat)
    requires i <= j <= |s|
    requires BreakFree(s[..i])
    requires forall t :: i <= t < j ==> IsBreak(s[t])
    ensures RemoveBreaks(s) == s[..i] + RemoveBreaks(s[j..])
  {
    var a, b, c := s[..i], s[i..j], s[j..];
    assert s == a + b + c;
    forall t | 0 <= t < |b|
      ensures IsBreak(b[t])
    {
      assert b[t] == s[i + t];
    }
    RemoveBreaksOfThree(a, b, c);
  }

  lemma {:induction false} ConcatOfPieces(s: string)
    ensures Concat(Pieces(s)) == RemoveBreaks(s)
    decreases |s|
  {
    var i := FirstBreak(s);
    if i == |s| {
      RemoveBreaksOfBreakFree(s);
      assert Concat([s]) == s + Concat([]);
    } else {
      var n := BreakRun(s[i..]);
      var j := i + n;
      assert forall t :: i <= t < j ==> s[t] == s[i..][t - i];
      RemoveBreaksAroundRun(s, i, j);
      var p := Pieces(s);
      assert p == [s[..i]] + Pieces(s[j..]);
      assert p[1..] == Pieces(s[j..]);
      ConcatOfPieces(s[j..]);
    }
  }

  lemma {:induction false} ConcatAppend(xs: seq<string>, ys: seq<string>)
    ensures Concat(xs + ys) == Concat(xs) + Concat(ys)
    decreases |xs|
  {
    if |xs| > 0 {
      assert (xs + ys)[1..] == xs[1..] + ys;
      ConcatAppend(xs[1..], ys);
    } else {
      assert xs + ys == ys;
    }
  }

  lemma {:induction false} ConcatOfDropTrailingEmpty(xs: seq<string>)
    ensures Concat(DropTrailingEmpty(xs)) == Concat(xs)
    decreases |xs|
  {
    if |xs| > 0 && xs[|xs| - 1] == "" {
      var init := xs[..|xs| - 1];
      assert xs == init + [""];
      ConcatAppend(init, [""]);
      assert Concat([""]) == "";
      ConcatOfDropTrailingEmpty(init);
    }
  }

  /** Splitting loses only the line breaks: the pieces, put back together, are the text with
      its CR and LF characters removed. */
  lemma {:induction false} SplitLinesKeepsText(s: string)
    ensures Concat(SplitLines(s)) == RemoveBreaks(s)
  {
    if FirstBreak(s) == |s| {
      RemoveBreaksOfBreakFree(s);
      assert Concat([s]) == s + Concat([]);
    } else {
      ConcatOfPieces(s);
      ConcatOfDropTrailingEmpty(Pieces(s));
    }
  }

  lemma {:induction false} ConcatEmpty(xs: seq<string>)
    requires Concat(xs) == ""
    ensures forall k :: 0 <= k < |xs| ==> xs[k] == ""
    decreases |xs|
  {
    if |xs| > 0 {
      ConcatEmpty(xs[1..]);
      forall k | 0 < k < |xs|
        ensures xs[k] == ""
      {
        assert xs[k] == xs[1..][k - 1];
      }
    }
  }

  /** The split is empty exactly when the text is a non-empty run of line breaks. */
  lemma {:induction false} SplitLinesEmptyIff(s: string)
    ensures SplitLines(s) == [] <==> |s| > 0 && forall i :: 0 <= i < |s| ==> IsBreak(s[i])
  {
    var r := SplitLines(s);
    SplitLinesKeepsText(s);
    RemoveBreaksEmptyIff(s);
    if |s| > 0 && forall i :: 0 <= i < |s| ==> IsBreak(s[i]) {
      assert FirstBreak(s) == 0;
      ConcatEmpty(r);
      if |r| > 0 {
        assert false;
      }
    }
  }

  // ---------------------------------------------------------------------------
  // BufferedReader.readLine
  // ---------------------------------------------------------------------------

  /** The successive results of `readLine()` on a reader over `s`. */
  function ReadLines(s: string): (r: seq<string>)
    ensures forall k :: 0 <= k < |r| ==> BreakFree(r[k])
    ensures |r| <= |s|
    decreases |s|
  {
    if |s| == 0 then []
    else
      var i := FirstBreak(s);
      if i == |s| then [s]
      else
        var next := if s[i] == '\r' && i + 1 < |s| && s[i + 1] == '\n' then i + 2 else i + 1;
        [s[..i]] + ReadLines(s[next..])
  }

  /** One of the three line terminators `readLine` recognises. */
  predicate IsTerminator(t: string)
  {
    t == "\n" || t == "\r" || t == "\r\n"
  }

  /** Each line followed by its own terminator. */
  function Terminated(lines: seq<string>, terms: seq<string>): string
    requires |terms| == |lines|
    decreases |lines|
  {
    if |lines| == 0 then "" else lines[0] + terms[0] + Terminated(lines[1..], terms[1..])
  }

  /** No lone CR is followed by an empty line ended by a lone LF: that CR and LF would be read
      as one CRLF terminator. */
  predicate Separable(lines: seq<string>, terms: seq<string>)
    requires |terms| == |lines|
  {
    forall k :: 0 <= k < |lines| - 1 && terms[k] == "\r" && lines[k + 1] == "" ==> terms[k + 1] != "\n"
  }

  /** One call of `readLine` on a line followed by a terminator; after a lone CR the next
      character must not be an LF, or the two would form one terminator. */
  lemma {:induction false} ReadLinesStep(l: string, terminator: string, rest: string)
    requires IsTerminator(terminator)
    requires BreakFree(l)
    requires terminator == "\r" && |rest| > 0 ==> rest[0] != '\n'
    ensures ReadLines(l + terminator + rest) == [l] + ReadLines(rest)
  {
    var s := l + terminator + rest;
    assert IsBreak(s[|l|]);
    assert FirstBreak(s) == |l|;
    assert s[..|l|] == l;
    assert s[|l| + |terminator|..] == rest;
  }

  /** Terminated lines followed by a break-free last line start with an LF only when the first
      line is empty and ended by a lone LF. */
  lemma {:induction false} TerminatedStart(lines: seq<string>, terms: seq<string>, last: string)
    requires |terms| == |lines|
    requires |lines| > 0 ==> BreakFree(lines[0]) && IsTerminator(terms[0])
    requires BreakFree(last)
    ensures
      var t := Terminated(lines, terms) + last;
      |t| > 0 && t[0] == '\n' ==> |lines| > 0 && lines[0] == "" && terms[0] == "\n"
  {
    var t := Terminated(lines, terms) + last;
    if |lines| == 0 {
      assert t == last;
    } else {
      assert t == lines[0] + (terms[0] + (Terminated(lines[1..], terms[1..]) + last));
      if |lines[0]| > 0 {
        assert t[0] == lines[0][0];
      } else {
        assert t[0] == terms[0][0];
      }
    }
  }

  /** Reading back lines, each written with one of the three terminators `readLine`
      recognises, followed by an optional unterminated last line, gives the lines back; an
      empty last line is no line. */
  lemma {:induction false} ReadLinesOfTerminated(lines: seq<string>, terms: seq<string>, last: string)
    requires |terms| == |lines|
    requires forall k :: 0 <= k < |lines| ==> BreakFree(lines[k]) && IsTerminator(terms[k])
    requires Separable(lines, terms)
    requires BreakFree(last)
    ensures ReadLines(Terminated(lines, terms) + last) == lines + (if last == "" then [] else [last])
    decreases |lines|
  {
    var extra := if last == "" then [] else [last];
    if |lines| == 0 {
      assert Terminated(lines, terms) + last == last;
      if last != "" {
        FirstBreakOfBreakFree(last);
      }
      assert lines + extra == extra;
    } else {
      var rest := Terminated(lines[1..], terms[1..]) + last;
      TerminatedCons(lines, terms, last);
      ReadLinesStep(lines[0], terms[0], rest);
      SeparableTail(lines, terms);
      ReadLinesOfTerminated(lines[1..], terms[1..], last);
      assert [lines[0]] + (lines[1..] + extra) == lines + extra;
    }
  }

  /** Terminated lines are the first line, its terminator, then the rest, which does not start
      with an LF when that terminator is a lone CR. */
  lemma {:induction false} TerminatedCons(lines: seq<string>, terms: seq<string>, last: string)
    requires |lines| > 0 && |terms| == |lines|
    requires forall k :: 0 <= k < |lines| ==> BreakFree(lines[k]) && IsTerminator(terms[k])
    requires Separable(lines, terms)
    requires BreakFree(last)
    ensures
      var rest := Terminated(lines[1..], terms[1..]) + last;
      && Terminated(lines, terms) + last == lines[0] + terms[0] + rest
      && (terms[0] == "\r" && |rest| > 0 ==> rest[0] != '\n')
  {
    TerminatedStart(lines[1..], terms[1..], last);
    assert |lines| > 1 ==> lines[1..][0] == lines[1] && terms[1..][0] == terms[1];
  }

  /** The lines after the first keep their terminators separable. */
  lemma {:induction false} SeparableTail(lines: seq<string>, terms: seq<string>)
    requires |lines| > 0 && |terms| == |lines|
    requires Separable(lines, terms)
    ensures Separable(lines[1..], terms[1..])
  {
    forall k | 0 <= k < |lines| - 2 && terms[1..][k] == "\r" && lines[1..][k + 1] == ""
      ensures terms[1..][k + 1] != "\n"
    {
      assert terms[1..][k] == terms[k + 1] && lines[1..][k + 1] == lines[k + 2];
    }
  }
}
