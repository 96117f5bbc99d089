/** The values an annotation can carry and the collector that gathers them
    (`Parser::__pushValue`): each tag name maps to the list of its values,
    one per occurrence, in document order. */
module Collector {
  import opened PhpArray

  /** The key of one entry of an argument list: the positional index PHP
      gives an appended entry, or the name written before `=`. */
  datatype ItemKey = Index(i: nat) | Name(name: string)

  /** An argument list, `$data['items']`, in insertion order. */
  type Items = seq<(ItemKey, string)>

  /** The three value forms: the bare marker `true`, a one-line text and a
      parenthesised argument list. */
  datatype Value = Flag | Text(text: string) | Args(items: Items)

  /** `$ret`: tag name to the values pushed for it, in first-insertion order. */
  type Annotations = seq<(string, seq<Value>)>

  /** The values recorded for `name`; none when the name never occurred. */
  function Lookup(a: Annotations, name: string): seq<Value> {
    match Get(a, name)
    case Some(vs) => vs
    case None => []
  }

  /** Each name is listed once, and only once it has a value. */
  ghost predicate WellFormed(a: Annotations) {
    DistinctKeys(a) && forall i :: 0 <= i < |a| ==> a[i].1 != []
  }

  /** `__pushValue`: `$stack[$key][] = $value` when the key is set, else
      `$stack[$key] = [$value]`. */
  function PushValue(stack: Annotations, key: string, value: Value): Annotations {
    Put(stack, key, Lookup(stack, key) + [value])
  }

  /** The pushed value joins the end of the list for its name. */
  lemma PushLookup(stack: Annotations, key: string, value: Value)
    ensures Lookup(PushValue(stack, key, value), key) == Lookup(stack, key) + [value]
  {
    PutGet(stack, key, Lookup(stack, key) + [value]);
  }

  /** A name not seen before gets a one-value list after all the others. */
  lemma PushNew(stack: Annotations, key: string, value: Value)
    requires Absent(stack, key)
    ensures PushValue(stack, key, value) == stack + [(key, [value])]
  {
    GetAbsent(stack, key);
    assert Lookup(stack, key) + [value] == [value];
    PutFresh(stack, key, [value]);
  }

  /** Pushing under one name leaves the values of every other name alone. */
  lemma PushOther(stack: Annotations, key: string, value: Value, other: string)
    requires other != key
    ensures Lookup(PushValue(stack, key, value), other) == Lookup(stack, other)
  {
    PutOther(stack, key, Lookup(stack, key) + [value], other);
  }

  /** A name seen before keeps its place: its list grows where it stands. */
  lemma PushExisting(stack: Annotations, i: nat, value: Value)
    requires DistinctKeys(stack) && i < |stack|
    ensures PushValue(stack, stack[i].0, value)
            == stack[..i] + [(stack[i].0, stack[i].1 + [value])] + stack[i + 1..]
  {
    GetAt(stack, i);
    PutAt(stack, i, stack[i].1 + [value]);
  }

  /** Pushing keeps the result well formed: names stay distinct and every
      listed name has a value. */
  lemma PushWellFormed(stack: Annotations, key: string, value: Value)
    requires WellFormed(stack)
    ensures WellFormed(PushValue(stack, key, value))
  {
    var r := PushValue(stack, key, value);
    PutDistinct(stack, key, Lookup(stack, key) + [value]);
    if Absent(stack, key) {
      PushNew(stack, key, value);
      assert forall i :: 0 <= i < |r| ==> r[i].1 != [] by {
        forall i | 0 <= i < |r| ensures r[i].1 != [] {
          if i < |stack| {
            assert r[i] == stack[i];
          }
        }
      }
    } else {
      var i :| 0 <= i < |stack| && stack[i].0 == key;
      PushExisting(stack, i, value);
      assert forall j :: 0 <= j < |r| ==> r[j].1 != [] by {
        forall j | 0 <= j < |r| ensures r[j].1 != [] {
          if j != i {
            assert r[j] == stack[j];
          }
        }
      }
    }
  }
}
