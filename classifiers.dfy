/** How the two line classifiers of the repository relate: the transcript's
    question/answer classifier (summarize.py) and the client's stricter
    directive extractor (chatgpt_client.py), which only recognises `Q:` and
    `A:` for display and sends the `P:` lines to the model. */
module LineClasses {
  import opened Wrappers
  import opened Text
  import opened Summarize
  import opened ChatClient

  /** The client echoes the line as `[Display] ...`. */
  predicate IsDisplayLine(raw: string) {
    StartsWith(Strip(raw), "Q:") || StartsWith(Strip(raw), "A:")
  }

  /** A `P:` line does not start with `Q` or `A`. */
  lemma DirectiveIsNotQA(p: string)
    requires StartsWith(p, "P:")
    ensures !StartsQA(p)
  {
    assert p[0] == p[..2][0];
  }

  /** No line is both a directive for the model and a transcript message. */
  lemma DirectiveAndMessageExclusive(raw: string)
    ensures DirectiveOf(raw).Some? ==> ClassifyLine(raw) == None
    ensures ClassifyLine(raw).Some? ==> DirectiveOf(raw) == None
  {
    DirectiveOfSpec(raw);
    ClassifyLineSpec(raw);
    if StartsWith(Strip(raw), "P:") {
      DirectiveIsNotQA(Strip(raw));
    }
  }

  /** A text made of whitespace and then a text that starts with no
      whitespace, and that does not end in whitespace, strips to that text. */
  lemma StripOfSplit(s: string, ws: string, t: string)
    requires s == ws + t && AllSpace(ws) && (t == [] || !IsSpace(t[0]))
    requires s == [] || !IsSpace(s[|s| - 1])
    ensures Strip(s) == t
  {
    if t == [] {
      assert s == ws;
      assert s == [];
    } else {
      assert t[|t| - 1] == s[|s| - 1];
      assert s == ws + t + [];
      StripUnique(ws, t, []);
    }
  }

  /** A line made of `Q` or `A`, a colon, whitespace and a text that starts
      with no whitespace and has no line feed is of that one-letter type and
      has that text. */
  lemma ColonLineMatch(line: string, c: char, rest: string, ws: string, t: string)
    requires line == [c] + ":" + rest && rest == ws + t
    requires (c == 'Q' || c == 'A') && AllSpace(ws) && (t == [] || !IsSpace(t[0])) && NoNewline(t)
    ensures MatchQa(line) == Some(Message([c], t))
  {
    assert line == [c] + ":" + ws + t;
    assert IsMessageType([c]) by { assert [c][1..] == []; }
    assert (":" + ws + t)[0] == ':';
    assert GreedySplit(line, [c], ":", ws, t);
    MatchQaComplete(line, [c], ":", ws, t);
  }

  /** On a single line `Q:` or `A:` followed by `rest`, with no whitespace at
      its end, the pattern gives the letter as the type and `rest` stripped as
      the text. */
  lemma DisplayLineMatch(line: string, c: char, rest: string)
    requires line == [c] + ":" + rest
    requires (c == 'Q' || c == 'A') && NoNewline(rest) && (rest == [] || !IsSpace(rest[|rest| - 1]))
    ensures MatchQa(line) == Some(Message([c], Strip(rest)))
  {
    var ws, t := LeftSplit(rest);
    StripOfSplit(rest, ws, t);
    NoNewlineSuffix(rest, |ws|);
    assert rest[|ws|..] == t;
    ColonLineMatch(line, c, rest, ws, t);
  }

  /** Every text is its leading whitespace followed by a text that starts
      with no whitespace. */
  lemma {:induction false} LeftSplit(s: string) returns (ws: string, t: string)
    ensures s == ws + t && AllSpace(ws) && (t == [] || !IsSpace(t[0]))
    decreases |s|
  {
    if s != [] && IsSpace(s[0]) {
      var ws', t' := LeftSplit(s[1..]);
      ws, t := [s[0]] + ws', t';
      assert s == [s[0]] + s[1..];
    } else {
      ws, t := [], s;
    }
  }

  /** A suffix of a line without line feeds has none. */
  lemma NoNewlineSuffix(p: string, k: nat)
    requires NoNewline(p) && k <= |p|
    ensures NoNewline(p[k..])
  {
    forall i | 0 <= i < |p| - k ensures p[k..][i] != '\n' {
      assert p[k..][i] == p[k + i];
    }
  }

  /** A stripped single line starting `Q:` or `A:` is of the one-letter type,
      with the rest after the colon, stripped, as its text. */
  lemma DisplayLineStripped(p: string)
    requires IsStripped(p) && NoNewline(p) && (StartsWith(p, "Q:") || StartsWith(p, "A:"))
    ensures MatchQa(p) == Some(Message([p[0]], Strip(p[2..])))
  {
    var rest := p[2..];
    assert p[..2][0] == p[0] && p[..2][1] == p[1] == ':';
    assert p == [p[0]] + ":" + rest by {
      assert p == p[..2] + rest;
    }
    assert rest != [] ==> rest[|rest| - 1] == p[|p| - 1];
    NoNewlineSuffix(p, 2);
    DisplayLineMatch(p, p[0], rest);
  }

  /** Every single-line display line of the client is a transcript message:
      its type is the first letter alone and its text is the rest after the
      colon, stripped. */
  lemma DisplayLineIsMessage(raw: string)
    requires IsDisplayLine(raw) && NoNewline(Strip(raw))
    ensures ClassifyLine(raw) == Some(Message([Strip(raw)[0]], Strip(Strip(raw)[2..])))
  {
    DisplayLineStripped(Strip(raw));
    ClassifyLineSpec(raw);
  }

  /** The client sends nothing for a display line. */
  lemma DisplayLineSendsNothing(raw: string)
    requires IsDisplayLine(raw)
    ensures DirectiveOf(raw) == None
  {
  }

  /** On a line that is already stripped, classification is the pattern. */
  lemma ClassifyStripped(p: string)
    requires IsStripped(p)
    ensures ClassifyLine(p) == MatchQa(p)
  {
    StripStripped(p);
    ClassifyLineSpec(p);
  }

  // ---------------------------------------------------------------------------
  // Lines on which the two classifiers, or the pattern and intuition, part.

  /** The pattern does not require the colon: `Quiet please` is a question
      whose text is `uiet please`. */
  lemma QuietPleaseIsQuestion()
    ensures MatchQa("Quiet please") == Some(Message("Q", "uiet please"))
  {
    var p := "Quiet please";
    assert p == "Q" + "" + "" + "uiet please";
    assert IsMessageType("Q") by { assert "Q"[1..] == []; }
    assert !IsDigit(p[1]) && !IsSpace(p[1]) && p[1] != ':';
    assert GreedySplit(p, "Q", "", "", "uiet please");
    assert NoNewline("uiet please");
    MatchQaComplete(p, "Q", "", "", "uiet please");
  }

  /** The digits of the type are taken as far as they go: `Q12abc` is of type
      `Q12` with text `abc`. */
  lemma GreedyDigits()
    ensures MatchQa("Q12abc") == Some(Message("Q12", "abc"))
  {
    var p := "Q12abc";
    assert p == "Q12" + "" + "" + "abc";
    assert IsMessageType("Q12") by { assert "Q12"[1..] == "12"; }
    assert !IsDigit(p[3]) && !IsSpace(p[3]) && p[3] != ':';
    assert GreedySplit(p, "Q12", "", "", "abc");
    assert NoNewline("abc");
    MatchQaComplete(p, "Q12", "", "", "abc");
  }

  /** A numbered question is a transcript message. */
  lemma NumberedQuestion()
    ensures MatchQa("Q1: What is X?") == Some(Message("Q1", "What is X?"))
  {
    var p := "Q1: What is X?";
    assert p == "Q1" + ":" + " " + "What is X?";
    assert IsMessageType("Q1") by { assert "Q1"[1..] == "1"; }
    assert GreedySplit(p, "Q1", ":", " ", "What is X?");
    assert NoNewline("What is X?");
    MatchQaComplete(p, "Q1", ":", " ", "What is X?");
  }

  /** The client neither displays nor sends a numbered question. */
  lemma NumberedQuestionIgnoredByClient()
    ensures !IsDisplayLine("Q1: What is X?") && DirectiveOf("Q1: What is X?") == None
  {
    var p := "Q1: What is X?";
    StripStripped(p);
    assert p[..2] == "Q1";
  }
}
