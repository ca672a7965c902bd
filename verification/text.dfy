/** The string operations of Python 2 that the pipeline script relies on:
    `find`, `split`, `join`, `strip`, `endswith`, `sorted` on strings, and
    `int`/`str` between integers and decimal text. Strings are byte strings
    in the original; here they are `seq<char>` compared by code point. */
module Text {
  import opened Outcomes

  /** The characters Python 2's `str.strip()` removes. */
  predicate IsSpace(c: char)
  {
    c == ' ' || c == '\t' || c == '\n' || c == '\r' || c == '\U{000B}' || c == '\U{000C}'
  }

  /** Position of the first `c` in `s`, or `|s|` when there is none. */
  function IndexOf(s: string, c: char): (i: nat)
    ensures i <= |s|
    ensures forall j :: 0 <= j < i ==> s[j] != c
    ensures i < |s| ==> s[i] == c
  {
    if |s| == 0 then 0
    else if s[0] == c then 0
    else 1 + IndexOf(s[1..], c)
  }

  /** The position of the first `c` in a text that starts with a
      `c`-free part is the length of that part. */
  lemma {:induction false} IndexAfterPrefix(a: string, b: string, c: char)
    requires c !in a
    ensures IndexOf(a + [c] + b, c) == |a|
    decreases |a|
  {
    if |a| > 0 {
      assert (a + [c] + b)[1..] == a[1..] + [c] + b;
      IndexAfterPrefix(a[1..], b, c);
    }
  }

  /** `s.split(c)[0]`: the part of `s` before the first `c`. */
  function BeforeFirst(s: string, c: char): (r: string)
    ensures c !in r
    ensures r <= s
    ensures |r| == |s| || s[|r|] == c
  {
    s[..IndexOf(s, c)]
  }

  // ---------------------------------------------------------------------
  // split and join

  /** `s.split(sep)` for a one-character separator: never empty, and no
      piece contains the separator. */
  function Split(s: string, sep: char): (parts: seq<string>)
    ensures |parts| >= 1
    ensures forall i :: 0 <= i < |parts| ==> sep !in parts[i]
    decreases |s|
  {
    var i := IndexOf(s, sep);
    if i == |s| then [s] else [s[..i]] + Split(s[i + 1..], sep)
  }

  /** `sep.join(parts)`. */
  function Join(parts: seq<string>, sep: string): string
  {
    if |parts| == 0 then ""
    else if |parts| == 1 then parts[0]
    else parts[0] + sep + Join(parts[1..], sep)
  }

  /** A piece without the separator, the separator, then the rest:
      splitting gives the piece, then the pieces of the rest. */
  lemma SplitCons(head: string, rest: string, sep: char)
    requires sep !in head
    ensures Split(head + [sep] + rest, sep) == [head] + Split(rest, sep)
  {
    var s := head + [sep] + rest;
    IndexAfterPrefix(head, rest, sep);
    assert s[..|head|] == head;
    assert s[|head| + 1..] == rest;
  }

  /** Text without the separator splits into itself. */
  lemma SplitWhole(s: string, sep: char)
    requires sep !in s
    ensures Split(s, sep) == [s]
  {
  }

  /** Three pieces without the separator, joined by it, split back. */
  lemma SplitThree(a: string, b: string, c: string, sep: char)
    requires sep !in a && sep !in b && sep !in c
    ensures Split(a + [sep] + b + [sep] + c, sep) == [a, b, c]
  {
    assert a + [sep] + b + [sep] + c == a + [sep] + (b + [sep] + c);
    SplitCons(a, b + [sep] + c, sep);
    SplitCons(b, c, sep);
  }

  /** Splitting a join gives the pieces back when none of them holds the
      separator. */
  lemma {:induction false} SplitOfJoin(parts: seq<string>, sep: char)
    requires |parts| >= 1
    requires forall i :: 0 <= i < |parts| ==> sep !in parts[i]
    ensures Split(Join(parts, [sep]), sep) == parts
    decreases |parts|
  {
    if |parts| == 1 {
      assert sep !in Join(parts, [sep]);
    } else {
      var rest := parts[1..];
      assert forall i :: 0 <= i < |rest| ==> rest[i] == parts[i + 1];
      SplitOfJoin(rest, sep);
      SplitCons(parts[0], Join(rest, [sep]), sep);
      assert parts == [parts[0]] + rest;
    }
  }

  lemma JoinCons(head: string, more: seq<string>, sep: string)
    requires |more| >= 1
    ensures Join([head] + more, sep) == head + sep + Join(more, sep)
  {
    assert ([head] + more)[1..] == more;
  }

  /** Joining the pieces of a split gives the string back. */
  lemma {:induction false} JoinOfSplit(s: string, sep: char)
    ensures Join(Split(s, sep), [sep]) == s
    decreases |s|
  {
    var i := IndexOf(s, sep);
    if i < |s| {
      var head := s[..i];
      var tail := s[i + 1..];
      assert s == head + [sep] + tail;
      JoinOfSplit(tail, sep);
      SplitCons(head, tail, sep);
      JoinCons(head, Split(tail, sep), [sep]);
    }
  }

  // ---------------------------------------------------------------------
  // strip

  /** `s.lstrip()`. */
  function TrimLeft(s: string): string
    decreases |s|
  {
    if |s| > 0 && IsSpace(s[0]) then TrimLeft(s[1..]) else s
  }

  /** `s.rstrip()`. */
  function TrimRight(s: string): string
    decreases |s|
  {
    if |s| > 0 && IsSpace(s[|s| - 1]) then TrimRight(s[..|s| - 1]) else s
  }

  /** What `lstrip` drops is whitespace, and what it keeps is a suffix
      that does not start with whitespace. */
  lemma {:induction false} TrimLeftDropsSpace(s: string)
    ensures var r := TrimLeft(s);
      && |r| <= |s| && r == s[|s| - |r|..]
      && (forall k :: 0 <= k < |s| - |r| ==> IsSpace(s[k]))
      && (r == [] || !IsSpace(r[0]))
    decreases |s|
  {
    if |s| > 0 && IsSpace(s[0]) {
      TrimLeftDropsSpace(s[1..]);
    }
  }

  /** What `rstrip` drops is whitespace, and what it keeps is a prefix
      that does not end with whitespace. */
  lemma {:induction false} TrimRightDropsSpace(s: string)
    ensures var r := TrimRight(s);
      && |r| <= |s| && r == s[..|r|]
      && (forall k :: |r| <= k < |s| ==> IsSpace(s[k]))
      && (r == [] || !IsSpace(r[|r| - 1]))
    decreases |s|
  {
    if |s| > 0 && IsSpace(s[|s| - 1]) {
      TrimRightDropsSpace(s[..|s| - 1]);
    }
  }

  /** `s.strip()`: the longest infix of `s` that neither starts nor ends
      with whitespace, after dropping whitespace only. */
  function Strip(s: string): string
  {
    TrimRight(TrimLeft(s))
  }

  lemma StripUnchanged(s: string)
    requires s != [] ==> !IsSpace(s[0]) && !IsSpace(s[|s| - 1])
    ensures Strip(s) == s
  {
  }

  /** `s.endswith(suffix)`. */
  predicate EndsWith(s: string, suffix: string)
  {
    |suffix| <= |s| && s[|s| - |suffix|..] == suffix
  }

  // ---------------------------------------------------------------------
  // ordering and sorting

  /** Python's `<=` on strings: lexicographic by code point, a proper
      prefix sorts first. */
  predicate Below(a: string, b: string)
    decreases |a|
  {
    |a| == 0 || (|b| > 0 && (a[0] < b[0] || (a[0] == b[0] && Below(a[1..], b[1..]))))
  }

  lemma {:induction false} BelowReflexive(a: string)
    ensures Below(a, a)
    decreases |a|
  {
    if |a| > 0 {
      BelowReflexive(a[1..]);
    }
  }

  lemma {:induction false} BelowAntisymmetric(a: string, b: string)
    requires Below(a, b) && Below(b, a)
    ensures a == b
    decreases |a|
  {
    if |a| > 0 {
      BelowAntisymmetric(a[1..], b[1..]);
      assert a == [a[0]] + a[1..];
      assert b == [b[0]] + b[1..];
    }
  }

  lemma {:induction false} BelowTransitive(a: string, b: string, c: string)
    requires Below(a, b) && Below(b, c)
    ensures Below(a, c)
    decreases |a|
  {
    if |a| > 0 && a[0] == b[0] && b[0] == c[0] {
      BelowTransitive(a[1..], b[1..], c[1..]);
    }
  }

  lemma {:induction false} BelowTotal(a: string, b: string)
    ensures Below(a, b) || Below(b, a)
    decreases |a|
  {
    if |a| > 0 && |b| > 0 && a[0] == b[0] {
      BelowTotal(a[1..], b[1..]);
    }
  }

  predicate IsLeast(s: set<string>, m: string)
  {
    m in s && forall x :: x in s ==> Below(m, x)
  }

  lemma {:induction false} LeastExists(s: set<string>)
    requires s != {}
    ensures exists m :: IsLeast(s, m)
    decreases |s|
  {
    var y :| y in s;
    if s == {y} {
      BelowReflexive(y);
      assert IsLeast(s, y);
    } else {
      var rest := s - {y};
      LeastExists(rest);
      var m :| IsLeast(rest, m);
      BelowTotal(m, y);
      if Below(m, y) {
        assert IsLeast(s, m);
      } else {
        forall x | x in s
          ensures Below(y, x)
        {
          if x == y {
            BelowReflexive(y);
          } else {
            BelowTransitive(y, m, x);
          }
        }
        assert IsLeast(s, y);
      }
    }
  }

  lemma LeastUnique(s: set<string>)
    ensures forall a, b :: IsLeast(s, a) && IsLeast(s, b) ==> a == b
  {
    forall a, b | IsLeast(s, a) && IsLeast(s, b)
      ensures a == b
    {
      BelowAntisymmetric(a, b);
    }
  }

  /** The smallest string of a non-empty set. */
  function Least(s: set<string>): (m: string)
    requires s != {}
    ensures m in s
    ensures forall x :: x in s ==> Below(m, x)
  {
    LeastExists(s);
    LeastUnique(s);
    var m :| IsLeast(s, m);
    m
  }

  predicate StrictlyAscending(xs: seq<string>)
  {
    forall i, j :: 0 <= i < j < |xs| ==> Below(xs[i], xs[j]) && xs[i] != xs[j]
  }

  function Elems(xs: seq<string>): set<string>
  {
    set x | x in xs
  }

  lemma ElemsOfThree(a: string, b: string, c: string)
    ensures Elems([a, b, c]) == {a, b, c}
  {
    var xs := [a, b, c];
    assert xs[0] == a && xs[1] == b && xs[2] == c;
  }

  /** `sorted(s)` of a set of strings: every element exactly once, in
      ascending order. */
  function SortedSet(s: set<string>): (r: seq<string>)
    ensures |r| == |s|
    ensures Elems(r) == s
    ensures StrictlyAscending(r)
    decreases |s|
  {
    if s == {} then []
    else
      var m := Least(s);
      var rest := SortedSet(s - {m});
      PrependLeast(s, m, rest);
      [m] + rest
  }

  /** A character none of the elements holds is in no element of the
      sorted list either. */
  lemma SortedKeepsOut(s: set<string>, c: char)
    requires forall x :: x in s ==> c !in x
    ensures forall i :: 0 <= i < |SortedSet(s)| ==> c !in SortedSet(s)[i]
  {
    var r := SortedSet(s);
    forall i | 0 <= i < |r|
      ensures c !in r[i]
    {
      assert r[i] in Elems(r);
    }
  }

  lemma PrependLeast(s: set<string>, m: string, rest: seq<string>)
    requires IsLeast(s, m)
    requires Elems(rest) == s - {m} && StrictlyAscending(rest)
    ensures Elems([m] + rest) == s
    ensures StrictlyAscending([m] + rest)
  {
    var r := [m] + rest;
    assert Elems(r) == {m} + Elems(rest);
    forall i, j | 0 <= i < j < |r|
      ensures Below(r[i], r[j]) && r[i] != r[j]
    {
      if i > 0 {
        assert r[i] == rest[i - 1] && r[j] == rest[j - 1];
      } else {
        assert r[j] == rest[j - 1] && rest[j - 1] in Elems(rest);
      }
    }
  }

  // ---------------------------------------------------------------------
  // decimal integers

  predicate IsDigit(c: char)
  {
    '0' <= c <= '9'
  }

  predicate AllDigits(s: string)
  {
    forall i :: 0 <= i < |s| ==> IsDigit(s[i])
  }

  function DigitChar(d: nat): (c: char)
    requires d < 10
    ensures IsDigit(c) && c as int - '0' as int == d
  {
    ('0' as int + d) as char
  }

  function NatToString(n: nat): (s: string)
    ensures |s| >= 1 && AllDigits(s)
    decreases n
  {
    if n < 10 then [DigitChar(n)] else NatToString(n / 10) + [DigitChar(n % 10)]
  }

  /** `str(n)` for an integer. */
  function IntToString(n: int): string
  {
    if n < 0 then "-" + NatToString(-n) else NatToString(n)
  }

  function DigitsValue(s: string): nat
    requires AllDigits(s)
    decreases |s|
  {
    if |s| == 0 then 0
    else DigitsValue(s[..|s| - 1]) * 10 + (s[|s| - 1] as int - '0' as int)
  }

  /** `int(text)`: optional surrounding whitespace, an optional sign and at
      least one decimal digit; anything else is a ValueError. */
  function ParseInt(text: string): Option<int>
  {
    ParseSigned(Strip(text))
  }

  /** `int` on text without surrounding whitespace. */
  function ParseSigned(t: string): Option<int>
  {
    if |t| > 0 && (t[0] == '-' || t[0] == '+') then
      var digits := t[1..];
      if |digits| > 0 && AllDigits(digits) then
        var magnitude: int := DigitsValue(digits);
        Some(if t[0] == '-' then 0 - magnitude else magnitude)
      else None
    else if |t| > 0 && AllDigits(t) then Some(DigitsValue(t))
    else None
  }

  lemma {:induction false} DigitsValueOfNatToString(n: nat)
    ensures DigitsValue(NatToString(n)) == n
    decreases n
  {
    var s := NatToString(n);
    if n >= 10 {
      DigitsValueOfNatToString(n / 10);
      assert s[..|s| - 1] == NatToString(n / 10);
    }
  }

  /** A run of digits reads as its decimal value. */
  lemma ParseDigits(d: string)
    requires |d| >= 1 && AllDigits(d)
    ensures ParseInt(d) == Some(DigitsValue(d))
  {
    assert IsDigit(d[0]) && IsDigit(d[|d| - 1]);
    StripUnchanged(d);
  }

  /** A minus sign before a run of digits negates its value. */
  lemma ParseNegated(d: string)
    requires |d| >= 1 && AllDigits(d)
    ensures ParseInt("-" + d) == Some(0 - DigitsValue(d))
  {
    var s := "-" + d;
    assert s[|s| - 1] == d[|d| - 1] && IsDigit(d[|d| - 1]);
    StripUnchanged(s);
    SignedNegated(d);
  }

  lemma SignedNegated(d: string)
    requires |d| >= 1 && AllDigits(d)
    ensures ParseSigned("-" + d) == Some(0 - DigitsValue(d))
  {
    assert ("-" + d)[1..] == d;
  }

  /** Reading back what `str` wrote gives the same integer. */
  lemma ParseIntOfIntToString(n: int)
    ensures ParseInt(IntToString(n)) == Some(n)
  {
    var m: nat := if n < 0 then -n else n;
    var d := NatToString(m);
    DigitsValueOfNatToString(m);
    if n < 0 {
      assert IntToString(n) == "-" + d;
      ParseNegated(d);
    } else {
      assert IntToString(n) == d;
      ParseDigits(d);
    }
  }
}
