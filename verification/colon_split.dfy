/**
  Splitting a string on the separator ':' the way Python's `str.split(":")`
  does: every ':' ends a field, empty fields are kept, and the result always
  has at least one field (`"".split(":") == [""]`). `Join` is its inverse.
 */
module ColonSplit {

  const Sep: char := ':'

  /** A field produced by `Split` never contains the separator. */
  predicate ColonFree(s: string) {
    Sep !in s
  }

  predicate AllColonFree(parts: seq<string>) {
    forall i :: 0 <= i < |parts| ==> ColonFree(parts[i])
  }

  /** Number of separators in `s`. */
  function CountColons(s: string): nat {
    if |s| == 0 then 0
    else (if s[0] == Sep then 1 else 0) + CountColons(s[1..])
  }

  /** `s.split(":")`, one character at a time. */
  function Split(s: string): (parts: seq<string>)
    ensures |parts| >= 1
    ensures AllColonFree(parts)
    decreases |s|
  {
    if |s| == 0 then [""]
    else if s[0] == Sep then [""] + Split(s[1..])
    else
      var rest := Split(s[1..]);
      [[s[0]] + rest[0]] + rest[1..]
  }

  /** `":".join(parts)`. */
  function Join(parts: seq<string>): string
    requires |parts| >= 1
    decreases |parts|
  {
    if |parts| == 1 then parts[0]
    else parts[0] + [Sep] + Join(parts[1..])
  }

  /** Splitting yields one more field than there are separators. */
  lemma {:induction false} SplitLength(s: string)
    ensures |Split(s)| == CountColons(s) + 1
    decreases |s|
  {
    if |s| > 0 {
      SplitLength(s[1..]);
    }
  }

  /** Putting a character in front of the first field puts it in front of the join. */
  lemma {:induction false} JoinPrependChar(c: char, parts: seq<string>)
    requires |parts| >= 1
    ensures Join([[c] + parts[0]] + parts[1..]) == [c] + Join(parts)
  {
    var q := [[c] + parts[0]] + parts[1..];
    if |parts| > 1 {
      assert q[1..] == parts[1..];
      assert Join(q) == ([c] + parts[0]) + [Sep] + Join(parts[1..]);
      assert Join(parts) == parts[0] + [Sep] + Join(parts[1..]);
    }
  }

  /** Joining the fields of a split gives back the original string. */
  lemma {:induction false} JoinSplit(s: string)
    ensures Join(Split(s)) == s
    decreases |s|
  {
    if |s| > 0 {
      JoinSplit(s[1..]);
      var rest := Split(s[1..]);
      assert s == [s[0]] + s[1..];
      if s[0] == Sep {
        assert Split(s)[1..] == rest;
      } else {
        JoinPrependChar(s[0], rest);
      }
    }
  }

  /** A separator-free string is a single field. */
  lemma {:induction false} SplitColonFree(p: string)
    requires ColonFree(p)
    ensures Split(p) == [p]
    decreases |p|
  {
    if |p| > 0 {
      assert p == [p[0]] + p[1..];
      SplitColonFree(p[1..]);
    }
  }

  /** A separator-free field followed by ':' splits off as the first field. */
  lemma {:induction false} SplitFieldThenColon(p: string, t: string)
    requires ColonFree(p)
    ensures Split(p + [Sep] + t) == [p] + Split(t)
    decreases |p|
  {
    var s := p + [Sep] + t;
    if |p| == 0 {
      assert s[1..] == t;
    } else {
      assert s[1..] == p[1..] + [Sep] + t;
      SplitFieldThenColon(p[1..], t);
      var rest := Split(s[1..]);
      assert rest[0] == p[1..];
      assert [s[0]] + rest[0] == p;
      assert rest[1..] == Split(t);
    }
  }

  /** Splitting a join of separator-free fields gives back the fields. */
  lemma {:induction false} SplitJoin(parts: seq<string>)
    requires |parts| >= 1
    requires AllColonFree(parts)
    ensures Split(Join(parts)) == parts
    decreases |parts|
  {
    if |parts| == 1 {
      SplitColonFree(parts[0]);
    } else {
      SplitJoin(parts[1..]);
      SplitFieldThenColon(parts[0], Join(parts[1..]));
      assert parts == [parts[0]] + parts[1..];
    }
  }

  /** Two strings with the same fields are the same string. */
  lemma SplitInjective(s: string, t: string)
    requires Split(s) == Split(t)
    ensures s == t
  {
    JoinSplit(s);
    JoinSplit(t);
  }
}
