/** What is proved about concrete comments: the comment of the repository's
    own test script parsed end to end, a tag repeated on two lines, an
    argument list the comment ends inside, and two inputs on which the
    normaliser removes more, or less, than one line's decoration. */
module Scenarios {
  import opened PhpStrings
  import opened PhpArray
  import opened Collector
  import opened Normalizer
  import opened Scanner
  import opened ScannerProperties

  /** The text of each tag line of the test comment after its `@`, cut into
      the tokens the scan tells apart. */
  const AuthorRest: string := "@" + ("author" + (" " + "angus"))
  const TestRest: string := "@" + ("test" + (" ( " + ("comment" + ("=" + ("1 " + ")")))))
  const HelloRest: string :=
    "@" + ("hello" + ("( " + ("speak " + ("= " + ("yes " + (", " + ("to" + ("=   " + ("\"" + ("world " + ("\"" + ")")))))))))))
  const GoRest: string := "@" + ("go" + "()")

  /** The lines of the test comment between `/**` and `*/`. */
  const AuthorSource: string := "\n * " + AuthorRest
  const TestSource: string := "\n *" + ("\n * " + TestRest)
  const HelloSource: string := "\n * " + HelloRest
  const GoSource: string := "\n * " + GoRest
  const Body: string := AuthorSource + (TestSource + (HelloSource + (GoSource + "\n ")))

  /** The doc comment of `function test()` in tests/test.php. */
  const TestComment: string := "/**" + Body + "*/"

  /** What the normaliser makes of each line, and of the whole comment. */
  const AuthorLine: string := "\n" + AuthorRest
  const TestLine: string := "\n" + ("\n" + TestRest)
  const HelloLine: string := "\n" + HelloRest
  const GoLine: string := "\n" + GoRest
  const TestText: string := AuthorLine + (TestLine + (HelloLine + (GoLine + "\n ")))

  /** The test comment parses to one value per tag, in the order of the tags:
      `author` a text, `test` and `hello` argument lists, `go` the marker. */
  lemma ParseTestComment()
    ensures Parse(TestComment) == TestResult
  {
    NormalizeTestComment();
    ScanTestText();
  }

  /** The delimiters go, no carriage return is there to change, and each
      continuation `\n *` or `\n * ` becomes a bare line feed. */
  lemma NormalizeTestComment()
    ensures Normalize(TestComment) == TestText
  {
    BodyChars();
    RemoveOpening();
    RemoveClosing(Body, "*/");
    LineFeedsNone(Body);
    CollapseBody();
  }

  /** The body holds no `/` and no carriage return. */
  lemma BodyChars()
    ensures '/' !in Body && '\r' !in Body
  {
    AuthorPlain();
    TestPlain();
    HelloPlain();
    GoPlain();
  }

  /** A tag line's text: it starts with `@`, ends with a character the
      continuation pattern does not take, and holds no line break and no `/`. */
  predicate PlainLine(rest: string) {
    rest != [] && rest[0] == '@' && Closed(rest) && '\n' !in rest && '\r' !in rest && '/' !in rest
  }

  lemma AuthorPlain() ensures PlainLine(AuthorRest) {}
  lemma TestPlain() ensures PlainLine(TestRest) {}
  lemma GoPlain() ensures PlainLine(GoRest) {}

  lemma HelloPlain()
    ensures PlainLine(HelloRest)
  {
    HelloNoFeed();
    HelloNoSlash();
    HelloNoReturn();
  }

  lemma HelloNoFeed() ensures '\n' !in HelloRest {}
  lemma HelloNoSlash() ensures '/' !in HelloRest {}
  lemma HelloNoReturn() ensures '\r' !in HelloRest {}

  /** The opening `/**` is the only one: the body and the closing `*/` hold
      no other `/` that could start one. */
  lemma RemoveOpening()
    requires '/' !in Body
    ensures RemoveAll(TestComment, "/**") == Body + "*/"
  {
    var rest := Body + "*/";
    assert TestComment == "/**" + rest;
    assert TestComment[..3] == "/**" && TestComment[3..] == rest;
    forall i: nat ensures !OccursAt(rest, "/**", i) {
      if i + 3 <= |rest| {
        assert rest[i] == rest[i..i + 3][0];
        if i < |Body| {
          assert rest[i] == Body[i];
        }
      }
    }
    RemoveAbsent(rest, "/**");
  }

  /** Collapsing the body line by line. */
  lemma CollapseBody()
    ensures CollapseContinuations(Body) == TestText
  {
    CollapseAuthor();
    CollapseTest();
    CollapseHello();
    CollapseGo();
    CollapsePiece(GoSource, GoLine, "\n ", "\n ");
    CollapsePiece(HelloSource, HelloLine, GoSource + "\n ", GoLine + "\n ");
    CollapsePiece(TestSource, TestLine, HelloSource + (GoSource + "\n "), HelloLine + (GoLine + "\n "));
    CollapsePiece(AuthorSource, AuthorLine, TestSource + (HelloSource + (GoSource + "\n ")),
                  TestLine + (HelloLine + (GoLine + "\n ")));
  }

  lemma CollapseAuthor()
    ensures Closed(AuthorSource) && CollapseContinuations(AuthorSource) == AuthorLine
  {
    AuthorPlain();
    CollapseStarLine(AuthorRest);
  }

  lemma CollapseTest()
    ensures Closed(TestSource) && CollapseContinuations(TestSource) == TestLine
  {
    TestPlain();
    CollapseStarLine(TestRest);
    CollapseBareStar("\n * " + TestRest);
    ClosedAfter("\n *", "\n * " + TestRest);
  }

  lemma CollapseHello()
    ensures Closed(HelloSource) && CollapseContinuations(HelloSource) == HelloLine
  {
    HelloPlain();
    CollapseStarLine(HelloRest);
  }

  lemma CollapseGo()
    ensures Closed(GoSource) && CollapseContinuations(GoSource) == GoLine
  {
    GoPlain();
    CollapseStarLine(GoRest);
  }

  lemma ClosedAfter(a: string, b: string)
    requires Closed(b)
    ensures Closed(a + b)
  {
    assert (a + b)[|a + b| - 1] == b[|b| - 1];
  }

  /** A line `\n * text` loses its leading `\n * `... */
  lemma CollapseStarLine(rest: string)
    requires PlainLine(rest)
    ensures Closed("\n * " + rest) && CollapseContinuations("\n * " + rest) == "\n" + rest
  {
    ClosedAfter("\n * ", rest);
    var s := "\n * " + rest;
    assert s[1..] == " * " + rest;
    assert SpaceRun(s[1..]) == 1;
    assert ContinuationLength(s) == 4;
    assert s[4..] == rest;
    CollapsePlain(rest);
  }

  /** ... and a line holding only ` *` becomes an empty line. */
  lemma CollapseBareStar(rest: string)
    requires rest != [] && rest[0] == '\n'
    ensures CollapseContinuations("\n *" + rest) == "\n" + CollapseContinuations(rest)
  {
    var s := "\n *" + rest;
    assert s[1..] == " *" + rest;
    assert SpaceRun(s[1..]) == 1;
    assert ContinuationLength(s) == 3;
    assert s[3..] == rest;
  }

  /** A piece that ends the continuation pattern's reach collapses on its own. */
  lemma CollapsePiece(piece: string, out: string, rest: string, restOut: string)
    requires Closed(piece) && CollapseContinuations(piece) == out
    requires CollapseContinuations(rest) == restOut
    ensures CollapseContinuations(piece + rest) == out + restOut
  {
    CollapseConcat(piece, rest);
  }

  /** The values of each tag of the test comment, and what
      `parseDocComment` returns for it. */
  const SpeakYes: Items := [(Name("speak"), "yes")]
  const HelloItems: Items := [(Name("speak"), "yes"), (Name("to"), "world ")]
  const TestResult: Annotations :=
    [("author", [Text("angus")]), ("test", [Args([(Name("comment"), "1")])]),
     ("hello", [Args(HelloItems)]), ("go", [Flag])]

  /** The scan of the normalised test comment records one value per tag,
      in the order of the tags. */
  lemma ScanTestText()
    ensures Run(TestText, 0, Initial) == TestResult
  {
    var r1 := PushValue([], "author", Text("angus"));
    var r2 := PushValue(r1, "test", Args([(Name("comment"), "1")]));
    var r3 := PushValue(r2, "hello", Args(HelloItems));
    var r4 := PushValue(r3, "go", Flag);
    assert Run(TestText, 0, Initial) == Run(TestText, 14, Idle(Ready, r1)) by {
      TextWindows();
      ScanAuthor(TestText, 0, []);
    }
    assert Run(TestText, 14, Idle(Ready, r1)) == Run(TestText, 35, Idle(Ready, r2)) by {
      TextWindows();
      ScanTest(TestText, 14, r1);
    }
    assert Run(TestText, 35, Idle(Ready, r2)) == Run(TestText, 73, Idle(Ready, r3)) by {
      TextWindows();
      ScanHello(TestText, 35, r2);
    }
    assert Run(TestText, 73, Idle(Ready, r3)) == Run(TestText, 79, Idle(Ready, r4)) by {
      TextWindows();
      ScanGo(TestText, 73, r3);
    }
    assert Run(TestText, 79, Idle(Ready, r4)) == r4 by {
      TextWindows();
      ScanEnd(TestText, 79, r4);
    }
    PushedValues();
  }

  /** Each tag of the test comment is new when it is pushed. */
  lemma PushedValues()
    ensures var r1 := PushValue([], "author", Text("angus"));
            var r2 := PushValue(r1, "test", Args([(Name("comment"), "1")]));
            var r3 := PushValue(r2, "hello", Args(HelloItems));
            PushValue(r3, "go", Flag) == TestResult
  {
    var a1 := ("author", [Text("angus")]);
    var a2 := ("test", [Args([(Name("comment"), "1")])]);
    var a3 := ("hello", [Args(HelloItems)]);
    var a4 := ("go", [Flag]);
    PushNew([], "author", Text("angus"));
    var r1 := PushValue([], "author", Text("angus"));
    assert r1 == [a1];
    PushNew(r1, "test", Args([(Name("comment"), "1")]));
    var r2 := PushValue(r1, "test", Args([(Name("comment"), "1")]));
    assert r2 == [a1, a2];
    AbsentAppend([a1], "test", a2.1, "hello");
    PushNew(r2, "hello", Args(HelloItems));
    var r3 := PushValue(r2, "hello", Args(HelloItems));
    assert r3 == [a1, a2, a3];
    AbsentAppend([a1], "test", a2.1, "go");
    AbsentAppend([a1, a2], "hello", a3.1, "go");
    PushNew(r3, "go", Flag);
    assert PushValue(r3, "go", Flag) == [a1, a2, a3, a4];
  }

  /** Where each line of the normalised comment lies in it. */
  lemma TextWindows()
    ensures |TestText| == 81
    ensures TestText[0..14] == AuthorLine && TestText[14] == '\n'
    ensures TestText[14..35] == TestLine && TestText[35] == '\n'
    ensures TestText[35..73] == HelloLine && TestText[73] == '\n'
    ensures TestText[73..79] == GoLine
    ensures forall q :: 79 <= q < 81 ==> IsWhite(TestText[q])
  {
    LineLengths();
    Lines(AuthorLine, TestLine, HelloLine, GoLine, "\n ");
    assert TestText[79..] == "\n ";
  }

  lemma LineLengths()
    ensures |AuthorLine| == 14 && |TestLine| == 21 && |HelloLine| == 38 && |GoLine| == 6
    ensures TestLine[0] == '\n' && HelloLine[0] == '\n' && GoLine[0] == '\n'
  {
  }

  /** Where each of five consecutive pieces lies in their concatenation. */
  lemma Lines(a: string, b: string, c: string, d: string, e: string)
    requires b != [] && c != [] && d != []
    ensures var t := a + (b + (c + (d + e)));
            var i, j, k := |a|, |a| + |b|, |a| + |b| + |c|;
            t[..i] == a && t[i..j] == b && t[j..k] == c && t[k..k + |d|] == d && t[k + |d|..] == e
            && t[i] == b[0] && t[j] == c[0] && t[k] == d[0]
  {
    var t := a + (b + (c + (d + e)));
    assert t == a + b + c + d + e;
  }

  /** A window of the text that holds `a + b` holds `a`, then `b`. */
  lemma Split(text: string, p: nat, a: string, b: string)
    requires p + |a + b| <= |text| && text[p..p + |a + b|] == a + b
    ensures text[p..p + |a|] == a && text[p + |a|..p + |a| + |b|] == b
  {
    assert text[p..p + |a|] == (a + b)[..|a|];
    assert text[p + |a|..p + |a| + |b|] == (a + b)[|a|..];
  }

  /** A span that starts inside a window of the text whose contents are
      known ends where it ends in the window, or at the window's end when the
      character after the window stops it. */
  lemma WindowSpan(text: string, p: nat, w: string, i: nat, k: nat, inSpan: char -> bool)
    requires p + |w| <= |text| && text[p..p + |w|] == w && i <= |w| && SpanEnd(w, i, inSpan) == k
    requires k < |w| || (p + |w| < |text| && !inSpan(text[p + |w|]))
    ensures SpanEnd(text, p + i, inSpan) == p + k
  {
    forall q | p + i <= q < p + k ensures inSpan(text[q]) {
      assert text[q] == w[q - p];
    }
    if k < |w| {
      assert text[p + k] == w[k];
    }
    SpanEndAt(text, p + i, p + k, inSpan);
  }

  lemma WindowChar(text: string, p: nat, w: string, i: nat)
    requires p + |w| <= |text| && text[p..p + |w|] == w && i < |w|
    ensures text[p + i] == w[i]
  {
    assert text[p + i] == text[p..p + |w|][i];
  }

  /** A line feed met while ready is passed over. */
  lemma ReadyFeed(text: string, p: nat, ret: Annotations)
    requires p < |text| && text[p] == '\n'
    ensures Run(text, p, Idle(Ready, ret)) == Run(text, p + 1, Idle(Ready, ret))
  {
    StepTo(text, p, Idle(Ready, ret), Idle(Ready, ret), true);
  }

  /** A line ends the text of a tag when the character after it is a line feed. */
  lemma LineEnd(text: string, p: nat)
    requires p < |text| && text[p] == '\n'
    ensures SpanEnd(text, p, NotNewLine) == p
  {
  }

  /** A line feed, `@` and a name token start a tag with that name. */
  lemma TagToken(text: string, p: nat, name: string, ret: Annotations)
    requires p + 2 + |name| < |text| && text[p] == '\n' && text[p + 1] == '@'
    requires text[p + 2..p + 2 + |name|] == name && SpanEnd(name, 0, IsNameChar) == |name|
    requires !IsNameChar(text[p + 2 + |name|])
    ensures Run(text, p, Idle(Ready, ret))
            == Run(text, p + 2 + |name|, Machine(AfterKey, p + 2, name, [], Unset, ret))
  {
    SpanEndAt(text, p, p + 1, IsWhite);
    WindowSpan(text, p + 2, name, 0, |name|, IsNameChar);
    TagName(text, p, ret);
  }

  /** Separators from offset `i` of a token to offset `k`, where the span
      stops, are passed over. */
  lemma SkipToken(text: string, q: nat, w: string, i: nat, k: nat, m: Machine)
    requires m.status == ReadingMultiArgs && m.start <= q + i
    requires q + |w| <= |text| && text[q..q + |w|] == w && i <= |w| && SpanEnd(w, i, IsSeparator) == k
    requires k < |w| || (q + |w| < |text| && !IsSeparator(text[q + |w|]))
    ensures Run(text, q + i, m) == Run(text, q + k, m)
  {
    WindowSpan(text, q, w, i, k, IsSeparator);
    SkipSeparators(text, q + i, m);
  }

  /** A bare token followed by `=` while no key is pending becomes the key,
      trimmed. */
  lemma KeyToken(text: string, q: nat, w: string, m: Machine)
    requires m.status == ReadingMultiArgs && m.itemKey == Unset && m.start <= q
    requires q + |w| < |text| && text[q..q + |w|] == w && text[q + |w|] == '='
    requires w != [] && !IsSeparator(w[0]) && w[0] != '"' && w[0] != ')'
    requires SpanEnd(w, 1, BareItemChar(false)) == |w|
    ensures Run(text, q, m) == Run(text, q + |w| + 1, m.(itemKey := Key(Trim(w)), start := q + |w|))
  {
    WindowChar(text, q, w, 0);
    WindowSpan(text, q, w, 1, |w|, BareItemChar(false));
    BareItem(text, q, m);
  }

  /** A bare token followed by `,` or `)` is stored, trimmed, under the
      pending key; `,` is passed over, `)` is read again. */
  lemma ValueToken(text: string, q: nat, w: string, m: Machine)
    requires m.status == ReadingMultiArgs && m.start <= q
    requires q + |w| < |text| && text[q..q + |w|] == w && (text[q + |w|] == ',' || text[q + |w|] == ')')
    requires w != [] && !IsSeparator(w[0]) && w[0] != '"' && w[0] != ')'
    requires SpanEnd(w, 1, BareItemChar(m.itemKey != Unset)) == |w|
    ensures Run(text, q, m)
            == Run(text, if text[q + |w|] == ',' then q + |w| + 1 else q + |w|,
                   m.(items := StoreItem(m.items, m.itemKey, Trim(w)), itemKey := Unset, start := q))
  {
    WindowChar(text, q, w, 0);
    WindowSpan(text, q, w, 1, |w|, BareItemChar(m.itemKey != Unset));
    BareItem(text, q, m);
  }

  /** `@author angus`: a one-line text, trimmed. */
  lemma ScanAuthor(text: string, p: nat, ret: Annotations)
    requires p + |AuthorLine| < |text| && text[p..p + |AuthorLine|] == AuthorLine
    requires text[p + |AuthorLine|] == '\n'
    ensures Run(text, p, Idle(Ready, ret))
            == Run(text, p + |AuthorLine|, Idle(Ready, PushValue(ret, "author", Text("angus"))))
  {
    AuthorName(text, p, ret);
    AuthorText(text, p, ret);
    ReadyFeed(text, p + 14, PushValue(ret, "author", Text("angus")));
  }

  lemma AuthorWindows(text: string, p: nat)
    requires p + |AuthorLine| <= |text| && text[p..p + |AuthorLine|] == AuthorLine
    ensures text[p..p + 1] == "\n" && text[p + 1..p + 2] == "@" && text[p + 2..p + 8] == "author"
    ensures text[p + 8..p + 9] == " " && text[p + 9..p + 14] == "angus"
  {
    Split(text, p, "\n", AuthorRest);
    Split(text, p + 1, "@", "author" + (" " + "angus"));
    Split(text, p + 2, "author", " " + "angus");
    Split(text, p + 8, " ", "angus");
  }

  lemma AuthorName(text: string, p: nat, ret: Annotations)
    requires p + |AuthorLine| < |text| && text[p..p + |AuthorLine|] == AuthorLine
    ensures Run(text, p, Idle(Ready, ret)) == Run(text, p + 8, Machine(AfterKey, p + 2, "author", [], Unset, ret))
  {
    AuthorWindows(text, p);
    assert SpanEnd("author", 0, IsNameChar) == 6;
    WindowChar(text, p, "\n", 0);
    WindowChar(text, p + 1, "@", 0);
    WindowChar(text, p + 8, " ", 0);
    TagToken(text, p, "author", ret);
  }

  lemma AuthorText(text: string, p: nat, ret: Annotations)
    requires p + |AuthorLine| < |text| && text[p..p + |AuthorLine|] == AuthorLine
    requires text[p + |AuthorLine|] == '\n'
    ensures Run(text, p + 8, Machine(AfterKey, p + 2, "author", [], Unset, ret))
            == Run(text, p + 15, Idle(Ready, PushValue(ret, "author", Text("angus"))))
  {
    AuthorWindows(text, p);
    AuthorTextFacts();
    WindowChar(text, p + 9, "angus", 0);
    WindowSpan(text, p + 8, " ", 0, 1, IsBlank);
    WindowSpan(text, p + 9, "angus", 0, 5, NotNewLine);
    OneLineTag(text, p + 8, Machine(AfterKey, p + 2, "author", [], Unset, ret));
  }

  lemma AuthorTextFacts()
    ensures SpanEnd(" ", 0, IsBlank) == 1 && SpanEnd("angus", 0, NotNewLine) == 5 && Trim("angus") == "angus"
  {
  }

  /** `@test ( comment=1 )`, after an empty line: a list with one named item. */
  lemma ScanTest(text: string, p: nat, ret: Annotations)
    requires p + |TestLine| < |text| && text[p..p + |TestLine|] == TestLine
    requires text[p + |TestLine|] == '\n'
    ensures Run(text, p, Idle(Ready, ret))
            == Run(text, p + |TestLine|, Idle(Ready, PushValue(ret, "test", Args([(Name("comment"), "1")]))))
  {
    TestWindows(text, p);
    WindowChar(text, p, "\n", 0);
    ReadyFeed(text, p, ret);
    TestTag(text, p, ret);
    TestOpen(text, p, ret);
    TestSkipOpen(text, p, ret);
    TestKey(text, p, ret);
    TestValue(text, p, ret);
    TestClose(text, p, ret);
    ReadyFeed(text, p + 21, PushValue(ret, "test", Args([(Name("comment"), "1")])));
  }

  lemma TestWindows(text: string, p: nat)
    requires p + |TestLine| <= |text| && text[p..p + |TestLine|] == TestLine
    ensures text[p..p + 1] == "\n" && text[p + 1..p + 2] == "\n" && text[p + 2..p + 3] == "@"
    ensures text[p + 3..p + 7] == "test" && text[p + 7..p + 10] == " ( " && text[p + 10..p + 17] == "comment"
    ensures text[p + 17..p + 18] == "=" && text[p + 18..p + 20] == "1 " && text[p + 20..p + 21] == ")"
  {
    Split(text, p, "\n", "\n" + TestRest);
    Split(text, p + 1, "\n", TestRest);
    Split(text, p + 2, "@", "test" + (" ( " + ("comment" + ("=" + ("1 " + ")")))));
    Split(text, p + 3, "test", " ( " + ("comment" + ("=" + ("1 " + ")"))));
    Split(text, p + 7, " ( ", "comment" + ("=" + ("1 " + ")")));
    Split(text, p + 10, "comment", "=" + ("1 " + ")"));
    Split(text, p + 17, "=", "1 " + ")");
    Split(text, p + 18, "1 ", ")");
  }

  lemma TestTag(text: string, p: nat, ret: Annotations)
    requires p + 10 <= |text| && text[p + 1..p + 2] == "\n" && text[p + 2..p + 3] == "@"
    requires text[p + 3..p + 7] == "test" && text[p + 7..p + 10] == " ( "
    ensures Run(text, p + 1, Idle(Ready, ret)) == Run(text, p + 7, Machine(AfterKey, p + 3, "test", [], Unset, ret))
  {
    assert SpanEnd("test", 0, IsNameChar) == 4;
    WindowChar(text, p + 1, "\n", 0);
    WindowChar(text, p + 2, "@", 0);
    WindowChar(text, p + 7, " ( ", 0);
    TagToken(text, p + 1, "test", ret);
  }

  lemma TestOpen(text: string, p: nat, ret: Annotations)
    requires p + 10 <= |text| && text[p + 7..p + 10] == " ( "
    ensures Run(text, p + 7, Machine(AfterKey, p + 3, "test", [], Unset, ret))
            == Run(text, p + 9, Machine(ReadingMultiArgs, p + 3, "test", [], Unset, ret))
  {
    assert SpanEnd(" ( ", 0, IsBlank) == 1;
    WindowSpan(text, p + 7, " ( ", 0, 1, IsBlank);
    WindowChar(text, p + 7, " ( ", 1);
    GroupOpen(text, p + 7, Machine(AfterKey, p + 3, "test", [], Unset, ret));
  }

  lemma TestSkipOpen(text: string, p: nat, ret: Annotations)
    requires p + 17 <= |text| && text[p + 7..p + 10] == " ( " && text[p + 10..p + 17] == "comment"
    ensures Run(text, p + 9, Machine(ReadingMultiArgs, p + 3, "test", [], Unset, ret))
            == Run(text, p + 10, Machine(ReadingMultiArgs, p + 3, "test", [], Unset, ret))
  {
    assert SpanEnd(" ( ", 2, IsSeparator) == 3;
    WindowChar(text, p + 10, "comment", 0);
    SkipToken(text, p + 7, " ( ", 2, 3, Machine(ReadingMultiArgs, p + 3, "test", [], Unset, ret));
  }

  lemma TestKey(text: string, p: nat, ret: Annotations)
    requires p + 18 <= |text| && text[p + 10..p + 17] == "comment" && text[p + 17..p + 18] == "="
    ensures Run(text, p + 10, Machine(ReadingMultiArgs, p + 3, "test", [], Unset, ret))
            == Run(text, p + 18, Machine(ReadingMultiArgs, p + 17, "test", [], Key("comment"), ret))
  {
    TestKeyFacts();
    WindowChar(text, p + 17, "=", 0);
    KeyToken(text, p + 10, "comment", Machine(ReadingMultiArgs, p + 3, "test", [], Unset, ret));
  }

  lemma TestKeyFacts()
    ensures SpanEnd("comment", 1, BareItemChar(false)) == 7 && Trim("comment") == "comment"
  {
  }

  lemma TestValue(text: string, p: nat, ret: Annotations)
    requires p + 21 <= |text| && text[p + 18..p + 20] == "1 " && text[p + 20..p + 21] == ")"
    ensures Run(text, p + 18, Machine(ReadingMultiArgs, p + 17, "test", [], Key("comment"), ret))
            == Run(text, p + 20, Machine(ReadingMultiArgs, p + 18, "test", [(Name("comment"), "1")], Unset, ret))
  {
    TestValueFacts();
    assert StoreItem([], Key("comment"), "1") == [(Name("comment"), "1")];
    WindowChar(text, p + 20, ")", 0);
    ValueToken(text, p + 18, "1 ", Machine(ReadingMultiArgs, p + 17, "test", [], Key("comment"), ret));
  }

  lemma TestValueFacts()
    ensures SpanEnd("1 ", 1, BareItemChar(true)) == 2 && Trim("1 ") == "1"
  {
  }

  lemma TestClose(text: string, p: nat, ret: Annotations)
    requires p + 21 < |text| && text[p + 20..p + 21] == ")" && text[p + 21] == '\n'
    ensures Run(text, p + 20, Machine(ReadingMultiArgs, p + 18, "test", [(Name("comment"), "1")], Unset, ret))
            == Run(text, p + 22, Idle(Ready, PushValue(ret, "test", Args([(Name("comment"), "1")]))))
  {
    WindowChar(text, p + 20, ")", 0);
    LineEnd(text, p + 21);
    CloseGroup(text, p + 20, Machine(ReadingMultiArgs, p + 18, "test", [(Name("comment"), "1")], Unset, ret));
  }

  /** `@hello( speak = yes , to=   "world ")`: two named items, the second
      one quoted, its blanks kept. */
  lemma ScanHello(text: string, p: nat, ret: Annotations)
    requires p + |HelloLine| < |text| && text[p..p + |HelloLine|] == HelloLine
    requires text[p + |HelloLine|] == '\n'
    ensures Run(text, p, Idle(Ready, ret))
            == Run(text, p + |HelloLine|, Idle(Ready, PushValue(ret, "hello", Args(HelloItems))))
  {
    HelloWindows(text, p);
    HelloTag(text, p, ret);
    HelloOpen(text, p, ret);
    HelloSkipOpen(text, p, ret);
    HelloSpeak(text, p, ret);
    HelloSkipEquals(text, p, ret);
    HelloYes(text, p, ret);
    HelloSkipComma(text, p, ret);
    HelloTo(text, p, ret);
    HelloSkipAssign(text, p, ret);
    HelloWorld(text, p, ret);
    HelloClose(text, p, ret);
    ReadyFeed(text, p + 38, PushValue(ret, "hello", Args(HelloItems)));
  }

  lemma HelloWindows(text: string, p: nat)
    requires p + |HelloLine| <= |text| && text[p..p + |HelloLine|] == HelloLine
    ensures text[p..p + 1] == "\n" && text[p + 1..p + 2] == "@" && text[p + 2..p + 7] == "hello"
    ensures text[p + 7..p + 9] == "( " && text[p + 9..p + 15] == "speak " && text[p + 15..p + 17] == "= "
    ensures text[p + 17..p + 21] == "yes " && text[p + 21..p + 23] == ", " && text[p + 23..p + 25] == "to"
    ensures text[p + 25..p + 29] == "=   " && text[p + 29..p + 30] == "\"" && text[p + 30..p + 36] == "world "
    ensures text[p + 36..p + 37] == "\"" && text[p + 37..p + 38] == ")"
  {
    var r4 := "\"" + ("world " + ("\"" + ")"));
    var r8 := "yes " + (", " + ("to" + ("=   " + r4)));
    Split(text, p, "\n", HelloRest);
    Split(text, p + 1, "@", "hello" + ("( " + ("speak " + ("= " + r8))));
    Split(text, p + 2, "hello", "( " + ("speak " + ("= " + r8)));
    Split(text, p + 7, "( ", "speak " + ("= " + r8));
    Split(text, p + 9, "speak ", "= " + r8);
    Split(text, p + 15, "= ", r8);
    Split(text, p + 17, "yes ", ", " + ("to" + ("=   " + r4)));
    Split(text, p + 21, ", ", "to" + ("=   " + r4));
    Split(text, p + 23, "to", "=   " + r4);
    Split(text, p + 25, "=   ", r4);
    Split(text, p + 29, "\"", "world " + ("\"" + ")"));
    Split(text, p + 30, "world ", "\"" + ")");
    Split(text, p + 36, "\"", ")");
  }

  lemma HelloTag(text: string, p: nat, ret: Annotations)
    requires p + 9 <= |text| && text[p..p + 1] == "\n" && text[p + 1..p + 2] == "@"
    requires text[p + 2..p + 7] == "hello" && text[p + 7..p + 9] == "( "
    ensures Run(text, p, Idle(Ready, ret)) == Run(text, p + 7, Machine(AfterKey, p + 2, "hello", [], Unset, ret))
  {
    assert SpanEnd("hello", 0, IsNameChar) == 5;
    WindowChar(text, p, "\n", 0);
    WindowChar(text, p + 1, "@", 0);
    WindowChar(text, p + 7, "( ", 0);
    TagToken(text, p, "hello", ret);
  }

  lemma HelloOpen(text: string, p: nat, ret: Annotations)
    requires p + 9 <= |text| && text[p + 7..p + 9] == "( "
    ensures Run(text, p + 7, Machine(AfterKey, p + 2, "hello", [], Unset, ret))
            == Run(text, p + 8, Machine(ReadingMultiArgs, p + 2, "hello", [], Unset, ret))
  {
    assert SpanEnd("( ", 0, IsBlank) == 0;
    WindowSpan(text, p + 7, "( ", 0, 0, IsBlank);
    WindowChar(text, p + 7, "( ", 0);
    GroupOpen(text, p + 7, Machine(AfterKey, p + 2, "hello", [], Unset, ret));
  }

  lemma HelloSkipOpen(text: string, p: nat, ret: Annotations)
    requires p + 15 <= |text| && text[p + 7..p + 9] == "( " && text[p + 9..p + 15] == "speak "
    ensures Run(text, p + 8, Machine(ReadingMultiArgs, p + 2, "hello", [], Unset, ret))
            == Run(text, p + 9, Machine(ReadingMultiArgs, p + 2, "hello", [], Unset, ret))
  {
    assert SpanEnd("( ", 1, IsSeparator) == 2;
    WindowChar(text, p + 9, "speak ", 0);
    SkipToken(text, p + 7, "( ", 1, 2, Machine(ReadingMultiArgs, p + 2, "hello", [], Unset, ret));
  }

  lemma HelloSpeak(text: string, p: nat, ret: Annotations)
    requires p + 17 <= |text| && text[p + 9..p + 15] == "speak " && text[p + 15..p + 17] == "= "
    ensures Run(text, p + 9, Machine(ReadingMultiArgs, p + 2, "hello", [], Unset, ret))
            == Run(text, p + 16, Machine(ReadingMultiArgs, p + 15, "hello", [], Key("speak"), ret))
  {
    HelloSpeakFacts();
    WindowChar(text, p + 15, "= ", 0);
    KeyToken(text, p + 9, "speak ", Machine(ReadingMultiArgs, p + 2, "hello", [], Unset, ret));
  }

  lemma HelloSpeakFacts()
    ensures SpanEnd("speak ", 1, BareItemChar(false)) == 6 && Trim("speak ") == "speak"
  {
  }

  lemma HelloSkipEquals(text: string, p: nat, ret: Annotations)
    requires p + 21 <= |text| && text[p + 15..p + 17] == "= " && text[p + 17..p + 21] == "yes "
    ensures Run(text, p + 16, Machine(ReadingMultiArgs, p + 15, "hello", [], Key("speak"), ret))
            == Run(text, p + 17, Machine(ReadingMultiArgs, p + 15, "hello", [], Key("speak"), ret))
  {
    assert SpanEnd("= ", 1, IsSeparator) == 2;
    WindowChar(text, p + 17, "yes ", 0);
    SkipToken(text, p + 15, "= ", 1, 2, Machine(ReadingMultiArgs, p + 15, "hello", [], Key("speak"), ret));
  }

  lemma HelloYes(text: string, p: nat, ret: Annotations)
    requires p + 23 <= |text| && text[p + 17..p + 21] == "yes " && text[p + 21..p + 23] == ", "
    ensures Run(text, p + 17, Machine(ReadingMultiArgs, p + 15, "hello", [], Key("speak"), ret))
            == Run(text, p + 22, Machine(ReadingMultiArgs, p + 17, "hello", SpeakYes, Unset, ret))
  {
    HelloYesFacts();
    assert StoreItem([], Key("speak"), "yes") == SpeakYes;
    WindowChar(text, p + 21, ", ", 0);
    ValueToken(text, p + 17, "yes ", Machine(ReadingMultiArgs, p + 15, "hello", [], Key("speak"), ret));
  }

  lemma HelloYesFacts()
    ensures SpanEnd("yes ", 1, BareItemChar(true)) == 4 && Trim("yes ") == "yes"
  {
  }

  lemma HelloSkipComma(text: string, p: nat, ret: Annotations)
    requires p + 25 <= |text| && text[p + 21..p + 23] == ", " && text[p + 23..p + 25] == "to"
    ensures Run(text, p + 22, Machine(ReadingMultiArgs, p + 17, "hello", SpeakYes, Unset, ret))
            == Run(text, p + 23, Machine(ReadingMultiArgs, p + 17, "hello", SpeakYes, Unset, ret))
  {
    assert SpanEnd(", ", 1, IsSeparator) == 2;
    WindowChar(text, p + 23, "to", 0);
    SkipToken(text, p + 21, ", ", 1, 2, Machine(ReadingMultiArgs, p + 17, "hello", SpeakYes, Unset, ret));
  }

  lemma HelloTo(text: string, p: nat, ret: Annotations)
    requires p + 29 <= |text| && text[p + 23..p + 25] == "to" && text[p + 25..p + 29] == "=   "
    ensures Run(text, p + 23, Machine(ReadingMultiArgs, p + 17, "hello", SpeakYes, Unset, ret))
            == Run(text, p + 26, Machine(ReadingMultiArgs, p + 25, "hello", SpeakYes, Key("to"), ret))
  {
    HelloToFacts();
    WindowChar(text, p + 25, "=   ", 0);
    KeyToken(text, p + 23, "to", Machine(ReadingMultiArgs, p + 17, "hello", SpeakYes, Unset, ret));
  }

  lemma HelloToFacts()
    ensures SpanEnd("to", 1, BareItemChar(false)) == 2 && Trim("to") == "to"
  {
  }

  lemma HelloSkipAssign(text: string, p: nat, ret: Annotations)
    requires p + 30 <= |text| && text[p + 25..p + 29] == "=   " && text[p + 29..p + 30] == "\""
    ensures Run(text, p + 26, Machine(ReadingMultiArgs, p + 25, "hello", SpeakYes, Key("to"), ret))
            == Run(text, p + 29, Machine(ReadingMultiArgs, p + 25, "hello", SpeakYes, Key("to"), ret))
  {
    assert SpanEnd("=   ", 1, IsSeparator) == 4;
    WindowChar(text, p + 29, "\"", 0);
    SkipToken(text, p + 25, "=   ", 1, 4, Machine(ReadingMultiArgs, p + 25, "hello", SpeakYes, Key("to"), ret));
  }

  lemma HelloWorld(text: string, p: nat, ret: Annotations)
    requires p + 38 <= |text| && text[p + 29..p + 30] == "\"" && text[p + 30..p + 36] == "world "
    requires text[p + 36..p + 37] == "\""
    ensures Run(text, p + 29, Machine(ReadingMultiArgs, p + 25, "hello", SpeakYes, Key("to"), ret))
            == Run(text, p + 37, Machine(ReadingMultiArgs, p + 30, "hello", HelloItems, Unset, ret))
  {
    WorldUnescaped();
    WindowChar(text, p + 29, "\"", 0);
    WindowChar(text, p + 36, "\"", 0);
    QuotedRoundTrip(text, p + 29, "world ", Machine(ReadingMultiArgs, p + 25, "hello", SpeakYes, Key("to"), ret));
    StoreWorld();
  }

  /** `world ` holds nothing to escape. */
  lemma WorldUnescaped()
    ensures AddSlashes("world ") == "world "
  {
    AddSlashesPlain("world ");
  }

  /** The quoted value joins `speak` under its own name. */
  lemma StoreWorld()
    ensures StoreItem(SpeakYes, Key("to"), "world ") == HelloItems
  {
  }

  lemma HelloClose(text: string, p: nat, ret: Annotations)
    requires p + 38 < |text| && text[p + 37..p + 38] == ")" && text[p + 38] == '\n'
    ensures Run(text, p + 37, Machine(ReadingMultiArgs, p + 30, "hello", HelloItems, Unset, ret))
            == Run(text, p + 39, Idle(Ready, PushValue(ret, "hello", Args(HelloItems))))
  {
    WindowChar(text, p + 37, ")", 0);
    LineEnd(text, p + 38);
    CloseGroup(text, p + 37, Machine(ReadingMultiArgs, p + 30, "hello", HelloItems, Unset, ret));
  }

  /** `@go()`: an empty list, which records the marker. */
  lemma ScanGo(text: string, p: nat, ret: Annotations)
    requires p + |GoLine| < |text| && text[p..p + |GoLine|] == GoLine
    requires text[p + |GoLine|] == '\n'
    ensures Run(text, p, Idle(Ready, ret))
            == Run(text, p + |GoLine|, Idle(Ready, PushValue(ret, "go", Flag)))
  {
    var m := Machine(AfterKey, p + 2, "go", [], Unset, ret);
    assert Run(text, p, Idle(Ready, ret)) == Run(text, p + 4, m) by {
      GoWindows(text, p);
      assert SpanEnd("go", 0, IsNameChar) == 2;
      WindowChar(text, p, "\n", 0);
      WindowChar(text, p + 1, "@", 0);
      WindowChar(text, p + 4, "()", 0);
      TagToken(text, p, "go", ret);
    }
    assert Run(text, p + 4, m) == Run(text, p + 7, Idle(Ready, PushValue(ret, "go", Flag))) by {
      GoWindows(text, p);
      assert SpanEnd("()", 0, IsBlank) == 0;
      WindowSpan(text, p + 4, "()", 0, 0, IsBlank);
      WindowChar(text, p + 4, "()", 0);
      GroupOpen(text, p + 4, m);
      WindowChar(text, p + 4, "()", 1);
      LineEnd(text, p + 6);
      CloseGroup(text, p + 5, m.(status := ReadingMultiArgs, items := []));
    }
    ReadyFeed(text, p + 6, PushValue(ret, "go", Flag));
  }

  lemma GoWindows(text: string, p: nat)
    requires p + |GoLine| <= |text| && text[p..p + |GoLine|] == GoLine
    ensures text[p..p + 1] == "\n" && text[p + 1..p + 2] == "@" && text[p + 2..p + 4] == "go"
    ensures text[p + 4..p + 6] == "()"
  {
    Split(text, p, "\n", GoRest);
    Split(text, p + 1, "@", "go" + "()");
    Split(text, p + 2, "go", "()");
  }

  /** White space up to the end of the text adds nothing. */
  lemma ScanEnd(text: string, p: nat, ret: Annotations)
    requires p <= |text| && forall q :: p <= q < |text| ==> IsWhite(text[q])
    ensures Run(text, p, Idle(Ready, ret)) == ret
  {
    SpanEndAt(text, p, |text|, IsWhite);
    SkipWhite(text, p, ret);
  }

  /** A tag written on two lines. */
  const Repeated: string := "@a" + ("\n@a" + "\n")

  /** A tag repeated adds one value per occurrence: the second `true` joins
      the list the first one started. */
  lemma ParseRepeated()
    ensures Parse(Repeated) == [("a", [Flag, Flag])]
  {
    NormalizeRepeated();
    ScanRepeated();
  }

  /** The text holds no delimiter, no carriage return and no continuation. */
  lemma NormalizeRepeated()
    ensures Normalize(Repeated) == Repeated
  {
    RepeatedChars();
    NormalizePlain(Repeated);
    CollapsePlain("@a");
    CollapseConcat("@a", "\n@a" + "\n");
    CollapseFeedTag();
    CollapseConcat("\n@a", "\n");
    CollapseFeed();
  }

  lemma RepeatedChars()
    ensures '/' !in Repeated && '\r' !in Repeated
  {
  }

  lemma CollapseFeedTag()
    ensures CollapseContinuations("\n@a") == "\n@a"
  {
    var t := "\n@a";
    assert SpaceRun(t[1..]) == 0 && ContinuationLength(t) == 0;
    CollapsePlain(t[1..]);
    assert CollapseContinuations(t) == [t[0]] + CollapseContinuations(t[1..]);
  }

  lemma CollapseFeed()
    ensures CollapseContinuations("\n") == "\n"
  {
    assert ContinuationLength("\n") == 0;
  }

  /** Both lines of `Repeated` add the marker under `a`. */
  lemma ScanRepeated()
    ensures Run(Repeated, 0, Initial) == [("a", [Flag, Flag])]
  {
    var r1 := PushValue([], "a", Flag);
    var r2 := PushValue(r1, "a", Flag);
    RepeatedFacts();
    MarkerLine(Repeated, 0, []);
    MarkerLine(Repeated, 3, r1);
    RepeatedValues();
  }

  lemma RepeatedFacts()
    ensures |Repeated| == 6 && Repeated[0] == '@' && Repeated[1] == 'a' && Repeated[2] == '\n'
    ensures Repeated[3] == '@' && Repeated[4] == 'a' && Repeated[5] == '\n'
    ensures Repeated[1..2] == "a" && Repeated[4..5] == "a"
  {
  }

  /** The first push starts the list for `a`, the second extends it. */
  lemma RepeatedValues()
    ensures PushValue(PushValue([], "a", Flag), "a", Flag) == [("a", [Flag, Flag])]
  {
    PushNew([], "a", Flag);
    var r1 := PushValue([], "a", Flag);
    assert r1 == [("a", [Flag])] && r1[0].0 == "a";
    assert DistinctKeys(r1);
    PushExisting(r1, 0, Flag);
    assert r1[..0] == [] && r1[1..] == [] && r1[0].1 + [Flag] == [Flag, Flag];
  }

  /** A line that is `@` and a one-character name alone adds the marker. */
  lemma MarkerLine(text: string, p: nat, ret: Annotations)
    requires p + 3 <= |text| && text[p] == '@' && IsNameChar(text[p + 1]) && text[p + 2] == '\n'
    ensures Run(text, p, Idle(Ready, ret))
            == Run(text, p + 3, Idle(Ready, PushValue(ret, text[p + 1..p + 2], Flag)))
  {
    SpanEndAt(text, p, p, IsWhite);
    SpanEndAt(text, p + 1, p + 2, IsNameChar);
    TagName(text, p, ret);
    SpanEndAt(text, p + 2, p + 2, IsBlank);
    BareTag(text, p + 2, Machine(AfterKey, p + 1, text[p + 1..p + 2], [], Unset, ret));
  }

  /** An argument list the comment ends inside. */
  const Unclosed: string := "@foo" + "(a"

  /** A tag whose argument list is never closed adds nothing. */
  lemma ParseUnclosed()
    ensures Parse(Unclosed) == []
  {
    NormalizeUnclosed();
    ScanUnclosed();
  }

  lemma NormalizeUnclosed()
    ensures Normalize(Unclosed) == Unclosed
  {
    UnclosedChars();
    NormalizePlain(Unclosed);
    CollapsePlain(Unclosed);
  }

  lemma UnclosedChars()
    ensures '/' !in Unclosed && '\r' !in Unclosed && '\n' !in Unclosed
  {
  }

  /** The name `foo` opens a list whose item `a` runs to the end. */
  lemma ScanUnclosed()
    ensures Run(Unclosed, 0, Initial) == []
  {
    UnclosedFacts();
    UnclosedScan(Unclosed);
  }

  lemma UnclosedScan(text: string)
    requires |text| == 6 && text[0] == '@' && text[1..4] == "foo" && text[4] == '(' && text[5] == 'a'
    requires IsNameChar(text[1]) && IsNameChar(text[2]) && IsNameChar(text[3])
    ensures Run(text, 0, Initial) == []
  {
    var m := Machine(AfterKey, 1, "foo", [], Unset, []);
    var m' := m.(status := ReadingMultiArgs, items := []);
    assert Run(text, 0, Initial) == Run(text, 4, m) by {
      SpanEndAt(text, 0, 0, IsWhite);
      SpanEndAt(text, 1, 4, IsNameChar);
      TagName(text, 0, []);
    }
    assert Run(text, 4, m) == Run(text, 5, m') by {
      SpanEndAt(text, 4, 4, IsBlank);
      GroupOpen(text, 4, m);
    }
    SpanEndAt(text, 6, 6, BareItemChar(false));
    BareItem(text, 5, m');
  }

  lemma UnclosedFacts()
    ensures |Unclosed| == 6 && Unclosed[0] == '@' && Unclosed[1..4] == "foo"
    ensures IsNameChar(Unclosed[1]) && IsNameChar(Unclosed[2]) && IsNameChar(Unclosed[3])
    ensures Unclosed[4] == '(' && Unclosed[5] == 'a'
  {
  }

  /** A comment without `/` holds neither delimiter: removing them leaves it
      as it is. */
  lemma NoDelimiters(s: string)
    requires '/' !in s
    ensures RemoveAll(RemoveAll(s, "/**"), "*/") == s
  {
    forall i: nat ensures !OccursAt(s, "/**", i) && !OccursAt(s, "*/", i) {
      if i + 2 <= |s| {
        assert s[i] == s[i..i + 2][0] && s[i + 1] == s[i..i + 2][1];
      }
      if i + 3 <= |s| {
        assert s[i] == s[i..i + 3][0];
      }
    }
    RemoveAbsent(s, "/**");
    RemoveAbsent(s, "*/");
  }

  /** A comment without `/` or carriage return is only collapsed. */
  lemma NormalizePlain(s: string)
    requires '/' !in s && '\r' !in s
    ensures Normalize(s) == CollapseContinuations(s)
  {
    NoDelimiters(s);
    LineFeedsNone(s);
  }

  /** A text that starts with a match of length `|s| - |rest|`: the match
      becomes one line feed and the rest is collapsed on its own. */
  lemma CollapseMatch(s: string, rest: string)
    requires 0 < ContinuationLength(s) && s[ContinuationLength(s)..] == rest
    ensures CollapseContinuations(s) == "\n" + CollapseContinuations(rest)
  {
  }

  /** A continuation line whose text starts with `\t* `, what normalising it
      once leaves, and what normalising that leaves. */
  const Nested: string := "\n * " + ("\t* " + "x")
  const NestedOnce: string := "\n" + ("\t* " + "x")
  const NestedTwice: string := "\n" + "x"

  /** `Nested` is one continuation line: its `\n * ` goes. */
  lemma NormalizeOnce()
    ensures Normalize(Nested) == NestedOnce
  {
    NormalizePlain(Nested);
    OnceMatch();
    CollapseMatch(Nested, "\t* " + "x");
    CollapsePlain("\t* " + "x");
  }

  /** The match at the start of `Nested` is `\n * `. */
  lemma OnceMatch()
    ensures ContinuationLength(Nested) == 4 && Nested[4..] == "\t* " + "x"
  {
    assert Nested[1..] == " " + Nested[2..] && SpaceRun(Nested[2..]) == 0;
  }

  /** What is left is a continuation line again: its `\n\t* ` goes. */
  lemma NormalizeAgain()
    ensures Normalize(NestedOnce) == NestedTwice
  {
    NormalizePlain(NestedOnce);
    AgainMatch();
    CollapseMatch(NestedOnce, "x");
    CollapsePlain("x");
  }

  /** The match at the start of `NestedOnce` is `\n\t* `. */
  lemma AgainMatch()
    ensures ContinuationLength(NestedOnce) == 4 && NestedOnce[4..] == "x"
  {
    assert NestedOnce[1..] == "\t" + NestedOnce[2..] && SpaceRun(NestedOnce[2..]) == 0;
  }

  /** Normalising twice can remove more than normalising once: the first
      pass turns `Nested` into `NestedOnce`, which is itself a
      continuation line. */
  lemma NormalizeTwice()
    ensures Normalize(Normalize(Nested)) != Normalize(Nested)
  {
    NormalizeOnce();
    NormalizeAgain();
  }

  /** A line ended by a carriage return and line feed, and what normalising
      makes of it. */
  const CrLf: string := "a" + ("\r\n" + "b")
  const CrLfText: string := "a" + ("\n\n" + "b")

  /** A carriage return and line feed become two line feeds, not one. */
  lemma CarriageReturnLineFeed()
    ensures Normalize(CrLf) == CrLfText
  {
    NoDelimiters(CrLf);
    CrLfFeeds();
    CrLfCollapse();
  }

  lemma CrLfFeeds()
    ensures LineFeeds(CrLf) == CrLfText
  {
    assert |CrLf| == |CrLfText| == 4;
    assert CrLf[1] == '\r' && CrLfText[1] == '\n';
  }

  /** No line of `CrLfText` starts with `*`: collapsing leaves it as it is. */
  lemma CrLfCollapse()
    ensures CollapseContinuations(CrLfText) == CrLfText
  {
    var t := CrLfText;
    assert |t| == 4 && t[1] == '\n' && t[2] == '\n' && t[3] == 'b';
    assert ContinuationLength(t) == 0;
    assert t[1..][1..] == t[2..] && SpaceRun(t[2..]) == 1 && ContinuationLength(t[1..]) == 0;
    assert t[2..][1..] == t[3..] && SpaceRun(t[3..]) == 0 && ContinuationLength(t[2..]) == 0;
    CollapsePlain(t[3..]);
    assert CollapseContinuations(t[2..]) == [t[2]] + CollapseContinuations(t[3..]);
    assert CollapseContinuations(t[1..]) == [t[1]] + CollapseContinuations(t[2..]);
    assert CollapseContinuations(t) == [t[0]] + CollapseContinuations(t[1..]);
    assert t == [t[0]] + ([t[1]] + ([t[2]] + t[3..]));
  }
}
