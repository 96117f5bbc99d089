/** `Parser::parseDocComment` as the program writes it: normalise the
    comment, then one `for` loop over its characters whose body switches on
    the status, keeps the scratch entries of `$data` in locals, and steps back
    one position (`$p--`) where a character has to be read again. */
module Parser {
  import opened PhpStrings
  import opened Collector
  import opened Normalizer
  import opened Scanner

  /** Parses a doc comment into its annotations. The result is the one the
      scanner specification gives, and no character is read more than twice:
      only two statuses step back, and each is left at once for one that
      does not. */
  method ParseDocComment(docComment: string) returns (ret: Annotations, ghost steps: nat)
    ensures ret == Parse(docComment)
    ensures steps <= 2 * |Normalize(docComment)|
  {
    var text := Normalize(docComment);
    var len := |text|;
    var status := Ready;
    var start: nat, key: string, items: Items, itemKey: PendingKey := 0, "", [], Unset;
    ret := [];
    steps := 0;
    var p: int := 0;
    ghost var expected := Run(text, 0, Initial);
    while p < len
      invariant 0 <= start <= p <= len
      invariant Run(text, p, Machine(status, start, key, items, itemKey, ret)) == expected
      invariant steps + Rank(status) <= 2 * p
      decreases len - p, Rank(status)
    {
      var rewind;
      status, start, key, items, itemKey, ret, rewind := ScanChar(text, p, status, start, key, items, itemKey, ret);
      if rewind {
        p := p - 1;
      }
      p := p + 1;
      steps := steps + 1;
    }
  }

  /** The body of the loop on `text[p]`: the new status and `$data` entries,
      the annotations so far, and whether the body ends with `$p--`. They
      are the ones the scanner specification gives for that step. */
  method ScanChar(text: string, p: nat, status: Status, start: nat, key: string, items: Items,
                  itemKey: PendingKey, ret: Annotations)
    returns (status': Status, start': nat, key': string, items': Items, itemKey': PendingKey,
             ret': Annotations, rewind: bool)
    requires start <= p < |text|
    ensures (Machine(status', start', key', items', itemKey', ret'), !rewind)
            == Step(text, p, Machine(status, start, key, items, itemKey, ret))
    ensures Run(text, p, Machine(status, start, key, items, itemKey, ret))
            == Run(text, if rewind then p else p + 1, Machine(status', start', key', items', itemKey', ret'))
    ensures start' <= if rewind then p else p + 1
    ensures rewind ==> Rank(status) == 1 && Rank(status') == 0
  {
    RunStep(text, p, Machine(status, start, key, items, itemKey, ret));
    var c := text[p];
    status', start', key', items', itemKey', ret', rewind := status, start, key, items, itemKey, ret, false;
    match status {
      case Ready =>
        if IsWhite(c) {
        } else if c == '@' {
          status' := ReadingKey;
          start', key', items', itemKey' := p + 1, "", [], Unset;
        } else {
          status' := SeekingNewLine;
        }
      case SeekingNewLine =>
        if c == '\n' {
          status' := Ready;
        }
      case ReadingKey =>
        if !IsNameChar(c) {
          key' := text[start..p];
          status' := AfterKey;
          rewind := true;
        }
      case AfterKey =>
        if IsBlank(c) {
        } else if c == '\n' {
          ret' := PushValue(ret, key, Flag);
          status' := Ready;
          start', key', items', itemKey' := 0, "", [], Unset;
        } else if c == '(' {
          status' := ReadingMultiArgs;
          items' := [];
        } else {
          status' := ReadingOneLineArgs;
          start' := p;
        }
      case ReadingOneLineArgs =>
        if c == '\n' {
          ret' := PushValue(ret, key, Text(Trim(text[start..p])));
          start', key', items', itemKey' := 0, "", [], Unset;
          status' := Ready;
        }
      case ReadingMultiArgs =>
        if IsWhite(c) || c == ',' {
        } else if c == '"' {
          if IsEmptyKey(itemKey) {
            itemKey' := Zero;
          }
          start' := p + 1;
          status' := ReadingItemString;
        } else if c == ')' {
          if items != [] {
            ret' := PushValue(ret, key, Args(items));
          } else {
            ret' := PushValue(ret, key, Flag);
          }
          status' := SeekingNewLine;
          start', key', items', itemKey' := 0, "", [], Unset;
        } else {
          status' := ReadingItem;
          start' := p;
        }
      case ReadingItem =>
        if c == ')' || c == ',' {
          items' := StoreItem(items, itemKey, Trim(text[start..p]));
          itemKey' := Unset;
          status' := ReadingMultiArgs;
          if c == ')' {
            rewind := true;
          }
        } else if c == '=' && itemKey == Unset {
          itemKey' := Key(Trim(text[start..p]));
          start' := p;
          status' := ReadingMultiArgs;
        }
      case ReadingItemString =>
        if c == '"' {
          items' := StoreItem(items, itemKey, StripSlashes(text[start..p]));
          status' := ReadingMultiArgs;
          itemKey' := Unset;
        } else if c == '\\' {
          status' := ReadingItemStrEscaping;
        }
      case ReadingItemStrEscaping =>
        status' := ReadingItemString;
    }
  }
}
