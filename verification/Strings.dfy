/** Splitting, joining and decimal numerals, with their round trips. */
module Strings {
  import opened Wrappers

  /** Python's `s.split(sep)` for a one-character separator. */
  function Split(s: string, sep: char): (parts: seq<string>)
    ensures |parts| >= 1
    ensures forall i :: 0 <= i < |parts| ==> sep !in parts[i]
  {
    if s == [] then [[]]
    else
      var rest := Split(s[1..], sep);
      if s[0] == sep then [[]] + rest else [[s[0]] + rest[0]] + rest[1..]
  }

  /** Python's `sep.join(parts)`. */
  function Join(parts: seq<string>, sep: char): string
    requires |parts| >= 1
  {
    if |parts| == 1 then parts[0] else parts[0] + [sep] + Join(parts[1..], sep)
  }

  lemma {:induction false} JoinOfSplit(s: string, sep: char)
    ensures Join(Split(s, sep), sep) == s
  {
    if s != [] {
      JoinOfSplit(s[1..], sep);
      var rest := Split(s[1..], sep);
      if s[0] == sep {
        assert ([[]] + rest)[1..] == rest;
      } else {
        var parts := [[s[0]] + rest[0]] + rest[1..];
        assert parts[1..] == rest[1..];
        assert parts == Split(s, sep);
        if |rest| > 1 {
          assert Join(parts, sep) == [s[0]] + (rest[0] + [sep] + Join(rest[1..], sep));
        }
      }
    }
  }

  lemma {:induction false} SplitSeparated(head: string, tail: string, sep: char)
    requires sep !in head
    ensures Split(head, sep) == [head]
    ensures Split(head + [sep] + tail, sep) == [head] + Split(tail, sep)
    decreases |head|
  {
    var whole := head + [sep] + tail;
    if head == [] {
      assert whole[1..] == tail;
    } else {
      SplitSeparated(head[1..], tail, sep);
      assert whole[1..] == head[1..] + [sep] + tail;
      assert head == [head[0]] + head[1..];
    }
  }

  lemma {:induction false} SplitOfJoin(parts: seq<string>, sep: char)
    requires |parts| >= 1 && forall i :: 0 <= i < |parts| ==> sep !in parts[i]
    ensures Split(Join(parts, sep), sep) == parts
    decreases |parts|
  {
    if |parts| == 1 {
      SplitSeparated(parts[0], [], sep);
    } else {
      SplitOfJoin(parts[1..], sep);
      SplitSeparated(parts[0], Join(parts[1..], sep), sep);
    }
  }

  /** Leading parts without the separator come out of the joined text as they went in, whatever follows them. */
  lemma {:induction false} SplitOfJoinStart(parts: seq<string>, sep: char, n: nat)
    requires 1 <= |parts| && n <= |parts| && forall i :: 0 <= i < n ==> sep !in parts[i]
    ensures |Split(Join(parts, sep), sep)| >= n
    ensures Split(Join(parts, sep), sep)[..n] == parts[..n]
    decreases |parts|
  {
    if n == 0 {
    } else if |parts| == 1 {
      SplitSeparated(parts[0], [], sep);
    } else {
      var rest := Split(Join(parts[1..], sep), sep);
      SplitOfJoinStart(parts[1..], sep, n - 1);
      SplitSeparated(parts[0], Join(parts[1..], sep), sep);
      assert ([parts[0]] + rest)[..n] == [parts[0]] + rest[..n - 1];
      assert parts[..n] == [parts[0]] + parts[1..][..n - 1];
    }
  }

  /** The pieces of all parts, in order. */
  function SplitAll(parts: seq<string>, sep: char): seq<string> {
    if parts == [] then [] else Split(parts[0], sep) + SplitAll(parts[1..], sep)
  }

  /** The pieces of a text with one more character in front. */
  function AddFirst(c: char, pieces: seq<string>, sep: char): seq<string>
    requires |pieces| >= 1
  {
    if c == sep then [[]] + pieces else [[c] + pieces[0]] + pieces[1..]
  }

  lemma SplitCons(c: char, s: string, sep: char)
    ensures Split([c] + s, sep) == AddFirst(c, Split(s, sep), sep)
  {
    assert ([c] + s)[1..] == s;
  }

  lemma AddFirstAppend(c: char, front: seq<string>, back: seq<string>, sep: char)
    requires |front| >= 1
    ensures AddFirst(c, front + back, sep) == AddFirst(c, front, sep) + back
  {
    assert (front + back)[0] == front[0] && (front + back)[1..] == front[1..] + back;
  }

  lemma {:induction false} SplitAppend(head: string, tail: string, sep: char)
    ensures Split(head + [sep] + tail, sep) == Split(head, sep) + Split(tail, sep)
    decreases |head|
  {
    if head == [] {
      assert head + [sep] + tail == [sep] + tail;
      SplitCons(sep, tail, sep);
    } else {
      var rest := head[1..];
      SplitAppend(rest, tail, sep);
      SplitCons(head[0], rest, sep);
      SplitCons(head[0], rest + [sep] + tail, sep);
      AddFirstAppend(head[0], Split(rest, sep), Split(tail, sep), sep);
      assert head == [head[0]] + rest;
      assert head + [sep] + tail == [head[0]] + (rest + [sep] + tail);
    }
  }

  /** Whatever the parts contain, the joined text splits into the pieces of all of them. */
  lemma {:induction false} SplitOfJoinAny(parts: seq<string>, sep: char)
    requires |parts| >= 1
    ensures Split(Join(parts, sep), sep) == SplitAll(parts, sep)
    decreases |parts|
  {
    if |parts| == 1 {
      assert Split(parts[0], sep) + [] == Split(parts[0], sep);
    } else {
      SplitOfJoinAny(parts[1..], sep);
      SplitAppend(parts[0], Join(parts[1..], sep), sep);
    }
  }

  lemma {:induction false} SplitAllAppend(front: seq<string>, back: seq<string>, sep: char)
    ensures SplitAll(front + back, sep) == SplitAll(front, sep) + SplitAll(back, sep)
  {
    if front == [] {
      assert front + back == back;
    } else {
      assert (front + back)[1..] == front[1..] + back;
      SplitAllAppend(front[1..], back, sep);
    }
  }

  lemma SplitAllCons(part: string, parts: seq<string>, sep: char)
    ensures SplitAll([part] + parts, sep) == Split(part, sep) + SplitAll(parts, sep)
  {
    assert ([part] + parts)[1..] == parts;
  }

  lemma {:induction false} SplitAllIsLonger(parts: seq<string>, sep: char)
    ensures |SplitAll(parts, sep)| >= |parts|
  {
    if parts != [] {
      SplitAllIsLonger(parts[1..], sep);
    }
  }

  /** One piece comes from one part that is that piece. */
  lemma SplitAllOfOne(parts: seq<string>, sep: char)
    requires |SplitAll(parts, sep)| == 1
    ensures parts == SplitAll(parts, sep)
  {
    SplitAllIsLonger(parts, sep);
    JoinOfSplit(parts[0], sep);
  }

  /** Two neighbouring parts join like one part with the separator in it. */
  lemma {:induction false} JoinMerged(front: seq<string>, x: string, y: string, back: seq<string>, sep: char)
    ensures Join(front + [x, y] + back, sep) == Join(front + [x + [sep] + y] + back, sep)
  {
    var apart, merged := front + [x, y] + back, front + [x + [sep] + y] + back;
    if front == [] {
      assert apart[1..] == [y] + back && merged[1..] == back;
      if back != [] {
        assert ([y] + back)[1..] == back;
      }
    } else {
      JoinMerged(front[1..], x, y, back, sep);
      assert apart[1..] == front[1..] + [x, y] + back;
      assert merged[1..] == front[1..] + [x + [sep] + y] + back;
    }
  }

  // ---------- Decimal numerals ----------

  const DIGITS := "0123456789"

  function Decimal(n: nat): (s: string)
    ensures |s| >= 1 && forall i :: 0 <= i < |s| ==> s[i] in DIGITS
  {
    if n < 10 then [DIGITS[n]] else Decimal(n / 10) + [DIGITS[n % 10]]
  }

  function DigitValue(c: char): Option<nat> {
    if '0' <= c <= '9' then Some(c as nat - '0' as nat) else None
  }

  function ParseDecimal(s: string): Option<nat> {
    if s == [] then None
    else
      var last := DigitValue(s[|s| - 1]);
      if last.None? then None
      else if |s| == 1 then last
      else
        var front := ParseDecimal(s[..|s| - 1]);
        if front.None? then None else Some(10 * front.value + last.value)
  }

  lemma ParseOneMoreDigit(front: string, value: nat, d: nat)
    requires ParseDecimal(front) == Some(value) && d < 10
    ensures ParseDecimal(front + [DIGITS[d]]) == Some(10 * value + d)
  {
    var s := front + [DIGITS[d]];
    assert s[..|s| - 1] == front && s[|s| - 1] == DIGITS[d];
  }

  lemma {:induction false} ParseOfDecimal(n: nat)
    ensures ParseDecimal(Decimal(n)) == Some(n)
  {
    if n < 10 {
    } else {
      ParseOfDecimal(n / 10);
      ParseOneMoreDigit(Decimal(n / 10), n / 10, n % 10);
    }
  }

  lemma DecimalInjective(m: nat, n: nat)
    requires Decimal(m) == Decimal(n)
    ensures m == n
  {
    ParseOfDecimal(m);
    ParseOfDecimal(n);
  }

  // ---------- Prefixes and the last colon ----------

  predicate StartsWith(s: string, prefix: string) {
    prefix <= s
  }

  /** Splits at the last colon. */
  function SplitLastColon(s: string): Option<(string, string)> {
    if s == [] then None
    else if s[|s| - 1] == ':' then Some((s[..|s| - 1], []))
    else
      var front := SplitLastColon(s[..|s| - 1]);
      if front.None? then None else Some((front.value.0, front.value.1 + [s[|s| - 1]]))
  }

  lemma {:induction false} SplitLastColonOf(head: string, tail: string)
    requires ':' !in tail
    ensures SplitLastColon(head + ":" + tail) == Some((head, tail))
    decreases |tail|
  {
    var s := head + ":" + tail;
    if tail == [] {
      assert s[..|s| - 1] == head;
    } else {
      var front := tail[..|tail| - 1];
      assert s[..|s| - 1] == head + ":" + front;
      SplitLastColonOf(head, front);
      assert tail == front + [tail[|tail| - 1]];
    }
  }

  lemma {:induction false} SplitLastColonPrefix(s: string)
    ensures SplitLastColon(s).Some? ==> SplitLastColon(s).value.0 <= s
  {
    if s != [] {
      SplitLastColonPrefix(s[..|s| - 1]);
    }
  }

  lemma {:induction false} LastColon(s: string) returns (head: string, tail: string)
    requires ':' in s
    ensures s == head + ":" + tail && ':' !in tail
  {
    var front, last := s[..|s| - 1], s[|s| - 1];
    assert s == front + [last];
    if last == ':' {
      head, tail := front, [];
    } else {
      head, tail := LastColon(front);
      tail := tail + [last];
    }
  }
}
