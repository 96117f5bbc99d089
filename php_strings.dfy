/** PHP string built-ins the parser calls: `trim` with its default character
    list and `stripslashes`, together with `addslashes`, the inverse that
    `stripslashes` is written against. Strings are sequences of characters. */
module PhpStrings {

  /** The characters PHP's `trim` strips when no list is given:
      space, tab, line feed, carriage return, NUL and vertical tab. */
  predicate IsTrimChar(c: char) {
    c == ' ' || c == '\t' || c == '\n' || c == '\r' || c == '\0' || c == '\U{0B}'
  }

  predicate AllTrimChars(s: string) {
    forall i :: 0 <= i < |s| ==> IsTrimChar(s[i])
  }

  /** `ltrim`: drops the leading trim characters. */
  function TrimLeft(s: string): string {
    if s != [] && IsTrimChar(s[0]) then TrimLeft(s[1..]) else s
  }

  /** `rtrim`: drops the trailing trim characters. */
  function TrimRight(s: string): string {
    if s != [] && IsTrimChar(s[|s| - 1]) then TrimRight(s[..|s| - 1]) else s
  }

  /** `ltrim` leaves a suffix that does not start with a trim character,
      after a prefix made of trim characters only. */
  lemma {:induction false} TrimLeftSpec(s: string)
    ensures var r := TrimLeft(s);
            |r| <= |s| && r == s[|s| - |r|..] && AllTrimChars(s[..|s| - |r|])
            && (r == [] || !IsTrimChar(r[0]))
  {
    if s != [] && IsTrimChar(s[0]) {
      TrimLeftSpec(s[1..]);
      var r := TrimLeft(s);
      assert s[..|s| - |r|] == [s[0]] + s[1..][..|s| - 1 - |r|];
    }
  }

  /** `rtrim` leaves a prefix that does not end with a trim character,
      before a suffix made of trim characters only. */
  lemma {:induction false} TrimRightSpec(s: string)
    ensures var r := TrimRight(s);
            |r| <= |s| && r == s[..|r|] && AllTrimChars(s[|r|..])
            && (r == [] || !IsTrimChar(r[|r| - 1]))
  {
    if s != [] && IsTrimChar(s[|s| - 1]) {
      var t := s[..|s| - 1];
      TrimRightSpec(t);
      var r := TrimRight(s);
      assert s[|r|..] == t[|r|..] + [s[|s| - 1]];
    }
  }

  /** `trim`: the longest infix of `s` that neither starts nor ends with a
      trim character, once only trim characters are dropped around it. */
  function Trim(s: string): string {
    TrimRight(TrimLeft(s))
  }

  /** What `trim` leaves is an infix of its argument with only trim
      characters around it, and neither starts nor ends with one. */
  lemma TrimInfix(s: string)
    ensures var r := Trim(s);
            exists i :: 0 <= i <= |s| - |r| && r == s[i..i + |r|]
                        && AllTrimChars(s[..i]) && AllTrimChars(s[i + |r|..])
    ensures var r := Trim(s); r == [] || (!IsTrimChar(r[0]) && !IsTrimChar(r[|r| - 1]))
  {
    var l := TrimLeft(s);
    var r := TrimRight(l);
    var i := |s| - |l|;
    TrimLeftSpec(s);
    TrimRightSpec(l);
    assert r == s[i..i + |r|];
    assert s[i + |r|..] == l[|r|..];
  }

  lemma {:induction false} TrimLeftPadded(left: string, rest: string)
    requires AllTrimChars(left)
    requires rest == [] || !IsTrimChar(rest[0])
    ensures TrimLeft(left + rest) == rest
  {
    if left != [] {
      assert (left + rest)[1..] == left[1..] + rest;
      TrimLeftPadded(left[1..], rest);
    }
  }

  lemma {:induction false} TrimRightPadded(rest: string, right: string)
    requires AllTrimChars(right)
    requires rest == [] || !IsTrimChar(rest[|rest| - 1])
    ensures TrimRight(rest + right) == rest
  {
    if right != [] {
      assert (rest + right)[..|rest + right| - 1] == rest + right[..|right| - 1];
      TrimRightPadded(rest, right[..|right| - 1]);
    }
  }

  /** A string with trim characters around a core that has none at its ends
      trims back to that core: `Trim` is determined by its contract. */
  lemma TrimPadded(left: string, core: string, right: string)
    requires AllTrimChars(left) && AllTrimChars(right)
    requires core == [] || (!IsTrimChar(core[0]) && !IsTrimChar(core[|core| - 1]))
    ensures Trim(left + core + right) == core
  {
    if core == [] {
      assert left + core + right == (left + right) + [];
      TrimLeftPadded(left + right, []);
    } else {
      assert left + core + right == left + (core + right);
      TrimLeftPadded(left, core + right);
      TrimRightPadded(core, right);
    }
  }

  /** `trim` is idempotent. */
  lemma TrimIdempotent(s: string)
    ensures Trim(Trim(s)) == Trim(s)
  {
    var r := Trim(s);
    TrimInfix(s);
    assert r == [] + r + [];
    TrimPadded([], r, []);
  }

  /** `stripslashes`: a backslash is dropped and the character after it kept,
      except that backslash-zero becomes NUL; a final lone backslash is dropped. */
  function StripSlashes(s: string): (r: string)
    ensures |r| <= |s|
  {
    if s == [] then []
    else if s[0] == '\\' then
      if |s| == 1 then []
      else (if s[1] == '0' then ['\0'] else [s[1]]) + StripSlashes(s[2..])
    else [s[0]] + StripSlashes(s[1..])
  }

  /** `addslashes`: a backslash before each single quote, double quote and
      backslash; NUL becomes backslash-zero. */
  function AddSlashes(s: string): (r: string)
    ensures |s| <= |r| <= 2 * |s|
  {
    if s == [] then []
    else if s[0] == '\0' then ['\\', '0'] + AddSlashes(s[1..])
    else if s[0] == '\'' || s[0] == '"' || s[0] == '\\' then ['\\', s[0]] + AddSlashes(s[1..])
    else [s[0]] + AddSlashes(s[1..])
  }

  /** A string without quotes, backslashes or NUL is left as it is. */
  lemma AddSlashesPlain(s: string)
    requires '\0' !in s && '\'' !in s && '"' !in s && '\\' !in s
    ensures AddSlashes(s) == s
  {
    if s != [] {
      assert s == [s[0]] + s[1..];
      AddSlashesPlain(s[1..]);
    }
  }

  /** `stripslashes` leaves a string without backslashes unchanged. */
  lemma {:induction false} StripSlashesPlain(s: string)
    requires '\\' !in s
    ensures StripSlashes(s) == s
  {
    if s != [] {
      assert s == [s[0]] + s[1..];
      StripSlashesPlain(s[1..]);
    }
  }

  /** Unescaping what `addslashes` escaped gives the original string back. */
  lemma {:induction false} StripAddSlashes(s: string)
    ensures StripSlashes(AddSlashes(s)) == s
  {
    if s != [] {
      StripAddSlashes(s[1..]);
      var e := AddSlashes(s);
      if s[0] == '\0' || s[0] == '\'' || s[0] == '"' || s[0] == '\\' {
        assert e[2..] == AddSlashes(s[1..]);
      } else {
        assert e[1..] == AddSlashes(s[1..]);
      }
    }
  }
}
