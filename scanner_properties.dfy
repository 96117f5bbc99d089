/** What the scan of `Parser::parseDocComment` does with each form of
    annotation, stated as equations between the result of the scan from one
    position and the result of the scan from a later one. */
module ScannerProperties {
  import opened PhpStrings
  import opened PhpArray
  import opened Collector
  import opened Normalizer
  import opened Scanner

  /** The end of the run of characters in `inSpan` that starts at `i`. */
  function SpanEnd(text: string, i: nat, inSpan: char -> bool): (e: nat)
    requires i <= |text|
    ensures i <= e <= |text|
    ensures forall q :: i <= q < e ==> inSpan(text[q])
    ensures e == |text| || !inSpan(text[e])
    decreases |text| - i
  {
    if i == |text| || !inSpan(text[i]) then i else SpanEnd(text, i + 1, inSpan)
  }

  /** The end of a span is the only position with every character before it
      in the span and the one at it (if any) outside. */
  lemma {:induction false} SpanEndAt(text: string, i: nat, e: nat, inSpan: char -> bool)
    requires i <= e <= |text|
    requires forall q :: i <= q < e ==> inSpan(text[q])
    requires e == |text| || !inSpan(text[e])
    ensures SpanEnd(text, i, inSpan) == e
    decreases e - i
  {
    if i < e {
      SpanEndAt(text, i + 1, e, inSpan);
    }
  }

  /** A span that ends inside a window of the text ends where it ends in
      the window alone. */
  lemma SpanEndWindow(text: string, i: nat, w: string, inSpan: char -> bool)
    requires i + |w| <= |text| && text[i..i + |w|] == w
    requires SpanEnd(w, 0, inSpan) < |w|
    ensures SpanEnd(text, i, inSpan) == i + SpanEnd(w, 0, inSpan)
  {
    var k := SpanEnd(w, 0, inSpan);
    forall q | i <= q < i + k ensures inSpan(text[q]) {
      assert text[q] == w[q - i];
    }
    assert text[i + k] == w[k];
    SpanEndAt(text, i, i + k, inSpan);
  }

  predicate NotNewLine(c: char) {
    c != '\n'
  }

  /** What an argument list skips between items. */
  predicate IsSeparator(c: char) {
    IsWhite(c) || c == ','
  }

  /** A character that does not end a bare item: not `)` or `,`, and not
      the `=` that captures a key while none has been captured. */
  predicate InBareItem(c: char, keyCaptured: bool) {
    c != ')' && c != ',' && (keyCaptured || c != '=')
  }

  function BareItemChar(keyCaptured: bool): char -> bool {
    c => InBareItem(c, keyCaptured)
  }

  /** The position of the `"` that closes a quoted value whose text starts
      at `i`, skipping each backslash and the character after it; the end of
      the text when the value is not closed. */
  function QuoteEnd(text: string, i: nat): (e: nat)
    requires i <= |text|
    ensures i <= e <= |text|
    ensures e < |text| ==> text[e] == '"'
    decreases |text| - i
  {
    if i == |text| || text[i] == '"' then i
    else if text[i] == '\\' then (if i + 1 == |text| then |text| else QuoteEnd(text, i + 2))
    else QuoteEnd(text, i + 1)
  }

  /** Characters on which a step leaves the state as it is are passed over. */
  lemma {:induction false} RunStays(text: string, p: nat, e: nat, m: Machine)
    requires m.start <= p <= e <= |text|
    requires forall q :: p <= q < e ==> Step(text, q, m) == (m, true)
    ensures Run(text, p, m) == Run(text, e, m)
    decreases e - p
  {
    if p < e {
      RunStep(text, p, m);
      RunStays(text, p + 1, e, m);
    }
  }

  /** Outside a tag, white space is passed over. */
  lemma SkipWhite(text: string, p: nat, ret: Annotations)
    requires p <= |text|
    ensures Run(text, p, Idle(Ready, ret)) == Run(text, SpanEnd(text, p, IsWhite), Idle(Ready, ret))
  {
    RunStays(text, p, SpanEnd(text, p, IsWhite), Idle(Ready, ret));
  }

  /** Seeking the next line passes over the rest of this one. */
  lemma SeekLine(text: string, p: nat, ret: Annotations)
    requires p <= |text|
    ensures var e := SpanEnd(text, p, NotNewLine);
            Run(text, p, Idle(SeekingNewLine, ret))
            == if e == |text| then ret else Run(text, e + 1, Idle(Ready, ret))
  {
    var e := SpanEnd(text, p, NotNewLine);
    RunStays(text, p, e, Idle(SeekingNewLine, ret));
    if e < |text| {
      RunStep(text, e, Idle(SeekingNewLine, ret));
    }
  }

  /** A line whose first character other than white space is not `@` adds
      nothing: the scan resumes at the start of the next line. */
  lemma ForeignLine(text: string, p: nat, ret: Annotations)
    requires p <= |text|
    requires var i := SpanEnd(text, p, IsWhite); i < |text| && text[i] != '@'
    ensures var e := SpanEnd(text, SpanEnd(text, p, IsWhite), NotNewLine);
            Run(text, p, Idle(Ready, ret))
            == if e == |text| then ret else Run(text, e + 1, Idle(Ready, ret))
  {
    var i := SpanEnd(text, p, IsWhite);
    SkipWhite(text, p, ret);
    RunStep(text, i, Idle(Ready, ret));
    SeekLine(text, i + 1, ret);
    assert SpanEnd(text, i, NotNewLine) == SpanEnd(text, i + 1, NotNewLine);
  }

  /** A line whose first character other than white space is `@` starts a
      tag whose name is the longest run of name characters after it, possibly
      empty. The character that ends the name is read again after it; a name
      that runs to the end of the text adds nothing. */
  lemma TagName(text: string, p: nat, ret: Annotations)
    requires p <= |text|
    requires var i := SpanEnd(text, p, IsWhite); i < |text| && text[i] == '@'
    ensures var i := SpanEnd(text, p, IsWhite);
            var e := SpanEnd(text, i + 1, IsNameChar);
            Run(text, p, Idle(Ready, ret))
            == if e == |text| then ret
               else Run(text, e, Machine(AfterKey, i + 1, text[i + 1..e], [], Unset, ret))
  {
    var i := SpanEnd(text, p, IsWhite);
    var e := SpanEnd(text, i + 1, IsNameChar);
    var m := Machine(ReadingKey, i + 1, "", [], Unset, ret);
    assert Run(text, p, Idle(Ready, ret)) == Run(text, i + 1, m) by {
      SkipWhite(text, p, ret);
      StepTo(text, i, Idle(Ready, ret), m, true);
    }
    assert Run(text, i + 1, m) == Run(text, e, m) by {
      forall q | i + 1 <= q < e ensures Step(text, q, m) == (m, true) {
        assert IsNameChar(text[q]);
      }
      RunStays(text, i + 1, e, m);
    }
    if e < |text| {
      StepTo(text, e, m, Machine(AfterKey, i + 1, text[i + 1..e], [], Unset, ret), false);
    }
  }

  /** A name followed by nothing but blanks up to the end of the line adds
      the marker `true` to the list for that name. */
  lemma BareTag(text: string, p: nat, m: Machine)
    requires m.status == AfterKey && m.start <= p <= |text|
    requires var b := SpanEnd(text, p, IsBlank); b < |text| && text[b] == '\n'
    ensures Run(text, p, m)
            == Run(text, SpanEnd(text, p, IsBlank) + 1, Idle(Ready, PushValue(m.ret, m.key, Flag)))
  {
    var b := SpanEnd(text, p, IsBlank);
    RunStays(text, p, b, m);
    RunStep(text, b, m);
  }

  /** A name followed on its line by other text adds that text, trimmed, up
      to the end of the line; when the text ends before the line does,
      nothing is added. */
  lemma OneLineTag(text: string, p: nat, m: Machine)
    requires m.status == AfterKey && m.start <= p <= |text|
    requires var b := SpanEnd(text, p, IsBlank); b == |text| || (text[b] != '\n' && text[b] != '(')
    ensures var b := SpanEnd(text, p, IsBlank);
            var e := SpanEnd(text, b, NotNewLine);
            Run(text, p, m)
            == if e == |text| then m.ret
               else Run(text, e + 1, Idle(Ready, PushValue(m.ret, m.key, Text(Trim(text[b..e])))))
  {
    var b := SpanEnd(text, p, IsBlank);
    var e := SpanEnd(text, b, NotNewLine);
    RunStays(text, p, b, m);
    if b < |text| {
      var m' := m.(status := ReadingOneLineArgs, start := b);
      RunStep(text, b, m);
      assert SpanEnd(text, b, NotNewLine) == SpanEnd(text, b + 1, NotNewLine);
      RunStays(text, b + 1, e, m');
      if e < |text| {
        RunStep(text, e, m');
      }
    }
  }

  /** A name followed by blanks and `(` opens an argument list with no items. */
  lemma GroupOpen(text: string, p: nat, m: Machine)
    requires m.status == AfterKey && m.start <= p <= |text|
    requires var b := SpanEnd(text, p, IsBlank); b < |text| && text[b] == '('
    ensures Run(text, p, m)
            == Run(text, SpanEnd(text, p, IsBlank) + 1, m.(status := ReadingMultiArgs, items := []))
  {
    var b := SpanEnd(text, p, IsBlank);
    RunStays(text, p, b, m);
    RunStep(text, b, m);
  }

  /** Between items, white space and commas are passed over. */
  lemma SkipSeparators(text: string, p: nat, m: Machine)
    requires m.status == ReadingMultiArgs && m.start <= p <= |text|
    ensures Run(text, p, m) == Run(text, SpanEnd(text, p, IsSeparator), m)
  {
    RunStays(text, p, SpanEnd(text, p, IsSeparator), m);
  }

  /** `)` closes the list: its items are added for the name, or the marker
      `true` when it has none, and the rest of the line is passed over. */
  lemma CloseGroup(text: string, p: nat, m: Machine)
    requires m.status == ReadingMultiArgs && m.start <= p < |text| && text[p] == ')'
    ensures var r := PushValue(m.ret, m.key, if m.items == [] then Flag else Args(m.items));
            var e := SpanEnd(text, p + 1, NotNewLine);
            Run(text, p, m) == if e == |text| then r else Run(text, e + 1, Idle(Ready, r))
  {
    var r := PushValue(m.ret, m.key, if m.items == [] then Flag else Args(m.items));
    RunStep(text, p, m);
    SeekLine(text, p + 1, r);
  }

  /** A bare item runs from its first character to the next `,` or `)`, or
      to the first `=` while no key has been captured. At `=` the trimmed
      text before it becomes the key; at `,` or `)` the trimmed text is
      stored, under the key if one was captured, and `)` is read again.
      An item the text ends in adds nothing. */
  lemma BareItem(text: string, s: nat, m: Machine)
    requires m.status == ReadingMultiArgs && m.start <= s < |text|
    requires !IsSeparator(text[s]) && text[s] != '"' && text[s] != ')'
    ensures var e := SpanEnd(text, s + 1, BareItemChar(m.itemKey != Unset));
            var v := Trim(text[s..e]);
            Run(text, s, m)
            == if e == |text| then m.ret
               else if text[e] == '=' then Run(text, e + 1, m.(itemKey := Key(v), start := e))
               else Run(text, if text[e] == ',' then e + 1 else e,
                        m.(items := StoreItem(m.items, m.itemKey, v), itemKey := Unset, start := s))
  {
    var e := SpanEnd(text, s + 1, BareItemChar(m.itemKey != Unset));
    var v := Trim(text[s..e]);
    var m' := m.(status := ReadingItem, start := s);
    assert Run(text, s, m) == Run(text, e, m') by {
      StepTo(text, s, m, m', true);
      ItemStays(text, s + 1, e, m');
    }
    if e < |text| {
      var c := text[e];
      assert !InBareItem(c, m.itemKey != Unset);
      var stored := m.(items := StoreItem(m.items, m.itemKey, v), itemKey := Unset, start := s);
      if c == '=' {
        assert Run(text, e, m') == Run(text, e + 1, m.(itemKey := Key(v), start := e)) by {
          StepTo(text, e, m', m.(itemKey := Key(v), start := e), true);
        }
      } else if c == ',' {
        assert Run(text, e, m') == Run(text, e + 1, stored) by {
          StepTo(text, e, m', stored, true);
        }
      } else {
        assert Run(text, e, m') == Run(text, e, stored) by {
          StepTo(text, e, m', stored, false);
        }
      }
    }
  }

  /** `RunStep` for a step whose outcome is known. */
  lemma StepTo(text: string, p: nat, m: Machine, next: Machine, advance: bool)
    requires m.start <= p < |text| && Step(text, p, m) == (next, advance)
    ensures Run(text, p, m) == Run(text, if advance then p + 1 else p, next)
  {
    RunStep(text, p, m);
  }

  /** Inside a bare item, the characters that do not end it are passed over. */
  lemma ItemStays(text: string, p: nat, e: nat, m: Machine)
    requires m.status == ReadingItem && m.start <= p <= e <= |text|
    requires forall q :: p <= q < e ==> InBareItem(text[q], m.itemKey != Unset)
    ensures Run(text, p, m) == Run(text, e, m)
  {
    forall q | p <= q < e ensures Step(text, q, m) == (m, true) {
      assert InBareItem(text[q], m.itemKey != Unset);
    }
    RunStays(text, p, e, m);
  }

  /** Inside a quoted text, everything up to the closing `"` is passed over,
      a backslash taking the character after it along. */
  lemma {:induction false} SkipString(text: string, i: nat, m: Machine)
    requires m.status == ReadingItemString && m.start <= i <= |text|
    ensures Run(text, i, m) == Run(text, QuoteEnd(text, i), m)
    decreases |text| - i
  {
    if i < |text| && text[i] != '"' {
      if text[i] == '\\' {
        var m' := m.(status := ReadingItemStrEscaping);
        StepTo(text, i, m, m', true);
        if i + 1 < |text| {
          StepTo(text, i + 1, m', m, true);
          SkipString(text, i + 2, m);
        }
      } else {
        StepTo(text, i, m, m, true);
        SkipString(text, i + 1, m);
      }
    }
  }

  /** A quoted text runs to the first `"` not preceded by an escaping
      backslash; `stripslashes` of what lies between is stored. A quoted
      text the comment ends in adds nothing. */
  lemma ScanString(text: string, i: nat, m: Machine)
    requires m.status == ReadingItemString && m.start <= i <= |text|
    ensures var e := QuoteEnd(text, i);
            Run(text, i, m)
            == if e == |text| then m.ret
               else Run(text, e + 1, m.(items := StoreItem(m.items, m.itemKey, StripSlashes(text[m.start..e])),
                                        status := ReadingMultiArgs, itemKey := Unset))
  {
    SkipString(text, i, m);
    var e := QuoteEnd(text, i);
    if e < |text| {
      StepTo(text, e, m, m.(items := StoreItem(m.items, m.itemKey, StripSlashes(text[m.start..e])),
                            status := ReadingMultiArgs, itemKey := Unset), true);
    }
  }

  /** An item that starts with `"` is a quoted text. It is stored under the
      captured key, or appended when there is none (or the key is empty or
      "0", which `empty()` does not tell apart from none). */
  lemma QuotedItem(text: string, s: nat, m: Machine)
    requires m.status == ReadingMultiArgs && m.start <= s < |text| && text[s] == '"'
    ensures var e := QuoteEnd(text, s + 1);
            var k := if IsEmptyKey(m.itemKey) then Zero else m.itemKey;
            Run(text, s, m)
            == if e == |text| then m.ret
               else Run(text, e + 1, m.(items := StoreItem(m.items, k, StripSlashes(text[s + 1..e])),
                                        itemKey := Unset, start := s + 1))
  {
    var k := if IsEmptyKey(m.itemKey) then Zero else m.itemKey;
    RunStep(text, s, m);
    ScanString(text, s + 1, m.(itemKey := k, start := s + 1, status := ReadingItemString));
  }

  /** A quoted text after the key `0` or an empty key is appended at the
      next positional index: `empty()` counts those keys as none. */
  lemma EmptyKeyQuoted(text: string, s: nat, m: Machine)
    requires m.status == ReadingMultiArgs && m.start <= s < |text| && text[s] == '"'
    requires m.itemKey == Key("0") || m.itemKey == Key("")
    ensures var e := QuoteEnd(text, s + 1);
            Run(text, s, m)
            == if e == |text| then m.ret
               else Run(text, e + 1, m.(items := m.items + [(Index(NextIndex(m.items)), StripSlashes(text[s + 1..e]))],
                                        itemKey := Unset, start := s + 1))
  {
    QuotedItem(text, s, m);
  }

  /** The closing quote of a text written with `addslashes` is the first
      character after it. */
  lemma {:induction false} QuoteEndEscaped(text: string, i: nat, v: string)
    requires i + |AddSlashes(v)| < |text|
    requires text[i..i + |AddSlashes(v)|] == AddSlashes(v) && text[i + |AddSlashes(v)|] == '"'
    ensures QuoteEnd(text, i) == i + |AddSlashes(v)|
    decreases |v|
  {
    if v != [] {
      var a := AddSlashes(v);
      assert text[i] == a[0];
      if v[0] == '\0' || v[0] == '\'' || v[0] == '"' || v[0] == '\\' {
        assert a[2..] == AddSlashes(v[1..]);
        assert text[i + 2..i + |a|] == a[2..];
        QuoteEndEscaped(text, i + 2, v[1..]);
      } else {
        assert a[1..] == AddSlashes(v[1..]);
        assert text[i + 1..i + |a|] == a[1..];
        QuoteEndEscaped(text, i + 1, v[1..]);
      }
    }
  }

  /** Any text, written between quotes with `addslashes`, is stored exactly. */
  lemma QuotedRoundTrip(text: string, s: nat, v: string, m: Machine)
    requires m.status == ReadingMultiArgs && m.start <= s && s + |AddSlashes(v)| + 1 < |text|
    requires text[s] == '"' && text[s + 1..s + 1 + |AddSlashes(v)|] == AddSlashes(v)
    requires text[s + 1 + |AddSlashes(v)|] == '"'
    ensures var k := if IsEmptyKey(m.itemKey) then Zero else m.itemKey;
            Run(text, s, m)
            == Run(text, s + |AddSlashes(v)| + 2,
                   m.(items := StoreItem(m.items, k, v), itemKey := Unset, start := s + 1))
  {
    var e := s + 1 + |AddSlashes(v)|;
    var k := if IsEmptyKey(m.itemKey) then Zero else m.itemKey;
    EscapedText(text, s + 1, v);
    QuotedItem(text, s, m);
  }

  /** A text written with `addslashes` and closed by `"` ends at that quote
      and unescapes to itself. */
  lemma EscapedText(text: string, i: nat, v: string)
    requires i + |AddSlashes(v)| < |text|
    requires text[i..i + |AddSlashes(v)|] == AddSlashes(v) && text[i + |AddSlashes(v)|] == '"'
    ensures QuoteEnd(text, i) == i + |AddSlashes(v)|
    ensures StripSlashes(text[i..QuoteEnd(text, i)]) == v
  {
    QuoteEndEscaped(text, i, v);
    StripAddSlashes(v);
  }

  /** A captured key names the stored value; every other entry keeps its value. */
  lemma StoreKeyedOther(items: Items, name: string, v: string, k: ItemKey)
    requires k != Name(name)
    ensures Get(StoreItem(items, Key(name), v), k) == Get(items, k)
  {
    PutOther(items, Name(name), v, k);
  }

  /** The same key given twice in one list keeps the second value, in the
      place of the first: no entry is added and no key moves. */
  lemma StoreKeyedTwice(items: Items, name: string, v: string, w: string)
    ensures var once := StoreItem(items, Key(name), v);
            var twice := StoreItem(once, Key(name), w);
            Get(twice, Name(name)) == Some(w) && |twice| == |once|
            && forall i :: 0 <= i < |once| ==> twice[i].0 == once[i].0
  {
    var once := StoreItem(items, Key(name), v);
    PutGet(items, Name(name), v);
    GetAbsent(once, Name(name));
    PutPresent(once, Name(name), w);
    PutGet(once, Name(name), w);
  }

  /** A step keeps each name listed once and with at least one value. */
  lemma StepWellFormed(text: string, p: nat, m: Machine)
    requires m.start <= p < |text| && WellFormed(m.ret)
    ensures WellFormed(Step(text, p, m).0.ret)
  {
    var c := text[p];
    match m.status
    case AfterKey =>
      PushWellFormed(m.ret, m.key, Flag);
    case ReadingOneLineArgs =>
      PushWellFormed(m.ret, m.key, Text(Trim(text[m.start..p])));
    case ReadingMultiArgs =>
      PushWellFormed(m.ret, m.key, if m.items != [] then Args(m.items) else Flag);
    case _ =>
  }

  /** The whole scan keeps each name listed once and with at least one value. */
  lemma {:induction false} RunWellFormed(text: string, p: nat, m: Machine)
    requires m.start <= p <= |text| && WellFormed(m.ret)
    ensures WellFormed(Run(text, p, m))
    decreases |text| - p, Rank(m.status)
  {
    if p < |text| {
      var t := Step(text, p, m);
      StepWellFormed(text, p, m);
      RunStep(text, p, m);
      RunWellFormed(text, if t.1 then p + 1 else p, t.0);
    }
  }

  /** Each name in the result of a parse occurs once, with its values. */
  lemma ParseWellFormed(docComment: string)
    ensures WellFormed(Parse(docComment))
  {
    RunWellFormed(Normalize(docComment), 0, Initial);
  }

  /** Without an `@`, the scan never leaves the two statuses outside tags. */
  lemma {:induction false} RunWithoutAt(text: string, p: nat, ret: Annotations, seeking: bool)
    requires p <= |text| && forall q :: p <= q < |text| ==> text[q] != '@'
    ensures Run(text, p, Idle(if seeking then SeekingNewLine else Ready, ret)) == ret
    decreases |text| - p
  {
    if p < |text| {
      var m := Idle(if seeking then SeekingNewLine else Ready, ret);
      RunStep(text, p, m);
      var t := Step(text, p, m);
      assert t.1 && t.0.ret == ret;
      assert t.0 == Idle(SeekingNewLine, ret) || t.0 == Idle(Ready, ret);
      RunWithoutAt(text, p + 1, ret, t.0.status == SeekingNewLine);
    }
  }

  /** A comment without `@` has no annotations. */
  lemma NoAtSignNoAnnotations(docComment: string)
    requires '@' !in docComment
    ensures Parse(docComment) == []
  {
    var text := Normalize(docComment);
    assert '@' !in text by {
      CountIn(docComment, '@');
      CountIn(text, '@');
    }
    RunWithoutAt(text, 0, [], false);
  }
}
