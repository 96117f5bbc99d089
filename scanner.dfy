/** The character scanner of `Parser::parseDocComment`, as a specification:
    one `Step` per character (or a rewind that re-reads it under a new status)
    and `Run`, the scan of the rest of the text from a given position. */
module Scanner {
  import opened PhpStrings
  import opened PhpArray
  import opened Collector
  import opened Normalizer

  /** `Parser::STATUS_*`. */
  datatype Status =
    | Ready
    | ReadingKey
    | AfterKey
    | SeekingNewLine
    | ReadingMultiArgs
    | ReadingOneLineArgs
    | ReadingItem
    | ReadingItemString
    | ReadingItemStrEscaping

  /** `$data['itemKey']`: unset, the integer 0 that marks a quoted value as
      positional, or the key captured before `=`. */
  datatype PendingKey = Unset | Zero | Key(name: string)

  /** The scanner's state: `$status`, the entries of the scratch dictionary
      `$data` (`start`, `key`, `items`, `itemKey`) and the result `$ret`. */
  datatype Machine = Machine(status: Status, start: nat, key: string, items: Items,
                             itemKey: PendingKey, ret: Annotations)

  /** `Parser::BLANK_CHARS`. */
  predicate IsBlank(c: char) {
    c == ' ' || c == '\t'
  }

  /** `Parser::WHITE_CHARS`. */
  predicate IsWhite(c: char) {
    c == ' ' || c == '\t' || c == '\n'
  }

  /** The class `[-\w\.]` a tag name is made of. */
  predicate IsNameChar(c: char) {
    ('a' <= c <= 'z') || ('A' <= c <= 'Z') || ('0' <= c <= '9') || c == '_' || c == '-' || c == '.'
  }

  /** PHP's `empty()` on `$data['itemKey']`: unset, 0, "" and "0" are empty. */
  predicate IsEmptyKey(k: PendingKey) {
    match k
    case Unset => true
    case Zero => true
    case Key(name) => name == "" || name == "0"
  }

  /** A status with `$data` emptied (`$data = []`). */
  function Idle(status: Status, ret: Annotations): Machine {
    Machine(status, 0, "", [], Unset, ret)
  }

  const Initial: Machine := Idle(Ready, [])

  /** The one more positional index PHP gives an appended entry: one past
      the largest index in use, or 0. */
  function NextIndex(items: Items): nat {
    if items == [] then 0
    else
      var rest := NextIndex(items[1..]);
      match items[0].0
      case Index(i) => if i + 1 > rest then i + 1 else rest
      case Name(_) => rest
  }

  /** `$data['items'][] = $v`: the value goes at the end under the next index. */
  function AppendItem(items: Items, v: string): Items {
    items + [(Index(NextIndex(items)), v)]
  }

  /** The next index is above every index in use. */
  lemma {:induction false} NextIndexFresh(items: Items)
    ensures forall i :: 0 <= i < |items| && items[i].0.Index? ==> items[i].0.i < NextIndex(items)
  {
    if items != [] {
      NextIndexFresh(items[1..]);
      assert forall i :: 0 < i < |items| ==> items[i] == items[1..][i - 1];
    }
  }

  /** The next index is 0, or one past an index in use: with
      `NextIndexFresh`, one past the largest index in use, and 0 when there
      is none. */
  lemma {:induction false} NextIndexUsed(items: Items)
    ensures NextIndex(items) == 0
            || exists i :: 0 <= i < |items| && items[i].0 == Index(NextIndex(items) - 1)
  {
    if items != [] {
      NextIndexUsed(items[1..]);
      var rest := NextIndex(items[1..]);
      if items[0].0.Index? && items[0].0.i + 1 > rest {
        assert items[0].0 == Index(NextIndex(items) - 1);
      } else if rest != 0 {
        assert NextIndex(items) == rest;
        var i :| 0 <= i < |items[1..]| && items[1..][i].0 == Index(rest - 1);
        assert items[i + 1].0 == Index(NextIndex(items) - 1);
      }
    }
  }

  /** Appending is assigning to the next index: no entry has it yet. */
  lemma AppendIsPut(items: Items, v: string)
    ensures AppendItem(items, v) == Put(items, Index(NextIndex(items)), v)
  {
    NextIndexFresh(items);
    PutFresh(items, Index(NextIndex(items)), v);
  }

  /** The store that ends an item: under its key when one was captured
      (`isset($data['itemKey']) && $data['itemKey'] !== 0`), else appended. */
  function StoreItem(items: Items, itemKey: PendingKey, v: string): Items {
    match itemKey
    case Key(name) => Put(items, Name(name), v)
    case _ => AppendItem(items, v)
  }

  /** `$p--` is allowed only out of these two statuses; the measure that
      makes the scan terminate is the position, then this rank. */
  function Rank(s: Status): nat {
    if s == ReadingKey || s == ReadingItem then 1 else 0
  }

  /** One pass of the loop body on `text[p]`. The flag is false when the
      body ends with `$p--`, so that the same character is read again. */
  function Step(text: string, p: nat, m: Machine): (r: (Machine, bool))
    requires m.start <= p < |text|
    ensures r.0.start <= if r.1 then p + 1 else p
    ensures !r.1 ==> (m.status, r.0.status) in {(ReadingKey, AfterKey), (ReadingItem, ReadingMultiArgs)}
  {
    match m.status
    case Ready => (OnReady(text[p], p, m), true)
    case SeekingNewLine => (OnSeekingNewLine(text[p], m), true)
    case ReadingKey => OnReadingKey(text, p, m)
    case AfterKey => (OnAfterKey(text[p], p, m), true)
    case ReadingOneLineArgs => (OnReadingOneLineArgs(text, p, m), true)
    case ReadingMultiArgs => (OnReadingMultiArgs(text[p], p, m), true)
    case ReadingItem => OnReadingItem(text, p, m)
    case ReadingItemString => (OnReadingItemString(text, p, m), true)
    case ReadingItemStrEscaping => (m.(status := ReadingItemString), true)
  }

  /** `STATUS_READY`: white space is skipped, `@` starts a name, anything
      else makes the line one to skip. */
  function OnReady(c: char, p: nat, m: Machine): (r: Machine)
    ensures r.start <= p + 1
    requires m.start <= p
  {
    if IsWhite(c) then m
    else if c == '@' then Machine(ReadingKey, p + 1, "", [], Unset, m.ret)
    else m.(status := SeekingNewLine)
  }

  /** `STATUS_SEEKING_NEW_LINE`: wait for the end of the line. */
  function OnSeekingNewLine(c: char, m: Machine): Machine {
    if c == '\n' then m.(status := Ready) else m
  }

  /** `STATUS_READING_KEY`: the first character that is not a name character
      ends the name, and is read again. */
  function OnReadingKey(text: string, p: nat, m: Machine): (r: (Machine, bool))
    requires m.start <= p < |text|
    ensures r.0.start <= p && (!r.1 ==> r.0.status == AfterKey)
  {
    if !IsNameChar(text[p]) then (m.(key := text[m.start..p], status := AfterKey), false)
    else (m, true)
  }

  /** `STATUS_AFTER_KEY`: blanks are skipped; a line end adds `true`, `(`
      opens an argument list and anything else starts a one-line text. */
  function OnAfterKey(c: char, p: nat, m: Machine): (r: Machine)
    requires m.start <= p
    ensures r.start <= p
  {
    if IsBlank(c) then m
    else if c == '\n' then Idle(Ready, PushValue(m.ret, m.key, Flag))
    else if c == '(' then m.(status := ReadingMultiArgs, items := [])
    else m.(status := ReadingOneLineArgs, start := p)
  }

  /** `STATUS_READING_ONE_LINE_ARGS`: the line end adds the trimmed text. */
  function OnReadingOneLineArgs(text: string, p: nat, m: Machine): (r: Machine)
    requires m.start <= p < |text|
    ensures r.start <= p
  {
    if text[p] == '\n' then Idle(Ready, PushValue(m.ret, m.key, Text(Trim(text[m.start..p]))))
    else m
  }

  /** `STATUS_READING_MULTI_ARGS`: white space and commas are skipped; `"`
      opens a quoted value, `)` adds the list (or `true` when it is empty)
      and anything else starts a bare item. */
  function OnReadingMultiArgs(c: char, p: nat, m: Machine): (r: Machine)
    requires m.start <= p
    ensures r.start <= p + 1
  {
    if IsWhite(c) || c == ',' then m
    else if c == '"' then
      m.(itemKey := if IsEmptyKey(m.itemKey) then Zero else m.itemKey,
         start := p + 1, status := ReadingItemString)
    else if c == ')' then
      Idle(SeekingNewLine, PushValue(m.ret, m.key, if m.items != [] then Args(m.items) else Flag))
    else m.(status := ReadingItem, start := p)
  }

  /** `STATUS_READING_ITEM`: `,` or `)` stores the trimmed item (and `)` is
      read again); the first `=` captures the trimmed text as the key. */
  function OnReadingItem(text: string, p: nat, m: Machine): (r: (Machine, bool))
    requires m.start <= p < |text|
    ensures r.0.start <= p && (!r.1 ==> r.0.status == ReadingMultiArgs)
  {
    var c := text[p];
    if c == ')' || c == ',' then
      (m.(items := StoreItem(m.items, m.itemKey, Trim(text[m.start..p])),
          itemKey := Unset, status := ReadingMultiArgs), c == ',')
    else if c == '=' && m.itemKey == Unset then
      (m.(itemKey := Key(Trim(text[m.start..p])), start := p, status := ReadingMultiArgs), true)
    else (m, true)
  }

  /** `STATUS_READING_ITEM_STRING`: `"` stores the unescaped text; `\`
      escapes the next character. */
  function OnReadingItemString(text: string, p: nat, m: Machine): (r: Machine)
    requires m.start <= p < |text|
    ensures r.start <= p
  {
    var c := text[p];
    if c == '"' then
      m.(items := StoreItem(m.items, m.itemKey, StripSlashes(text[m.start..p])),
         status := ReadingMultiArgs, itemKey := Unset)
    else if c == '\\' then m.(status := ReadingItemStrEscaping)
    else m
  }

  /** The result of scanning `text` from position `p` in state `m` to the end. */
  function Run(text: string, p: nat, m: Machine): Annotations
    requires m.start <= p <= |text|
    decreases |text| - p, Rank(m.status), 1
  {
    if p == |text| then m.ret else Continue(text, p, m)
  }

  /** The scan from a position before the end: one step, then the rest. */
  function Continue(text: string, p: nat, m: Machine): Annotations
    requires m.start <= p < |text|
    decreases |text| - p, Rank(m.status), 0
  {
    var t := Step(text, p, m);
    Run(text, if t.1 then p + 1 else p, t.0)
  }

  /** One step of the scan: the rest of the result is the result of the
      scan from the next position (or the same one, after a rewind). */
  lemma RunStep(text: string, p: nat, m: Machine)
    requires m.start <= p < |text|
    ensures var t := Step(text, p, m);
            Run(text, p, m) == Run(text, if t.1 then p + 1 else p, t.0)
  {
  }

  /** A character read again after `$p--` is not read a third time: a
      rewind leaves a status whose step on that character always advances. */
  lemma RewindOnce(text: string, p: nat, m: Machine)
    requires m.start <= p < |text| && !Step(text, p, m).1
    ensures Step(text, p, Step(text, p, m).0).1
  {
  }

  /** What `Parser::parseDocComment` returns. */
  function Parse(docComment: string): Annotations {
    Run(Normalize(docComment), 0, Initial)
  }
}
