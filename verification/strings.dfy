/** String primitives the listener bundle and the routes use: `startsWith`,
    `split`/join on a one-character separator, ASCII case mapping and the
    36-character identifier shape `^[A-Za-z0-9-]{36}$`. */
module Strings {

  /** JavaScript `s.startsWith(p)`. */
  predicate StartsWith(s: string, p: string) {
    |p| <= |s| && forall i :: 0 <= i < |p| ==> s[i] == p[i]
  }

  /** A string lacking a character cannot start with text containing it. */
  lemma NoSeparatorNoPrefix(s: string, p: string, c: char)
    requires c !in s && c in p
    ensures !StartsWith(s, p)
  {
  }

  /** Index of the first `c` in `s`, or `|s|` when there is none. */
  function IndexOf(s: string, c: char): (i: nat)
    ensures i <= |s|
  {
    if |s| == 0 then 0
    else if s[0] == c then 0
    else 1 + IndexOf(s[1..], c)
  }

  /** `IndexOf` finds the first occurrence. */
  lemma {:induction false} IndexOfFirst(s: string, c: char)
    ensures forall j :: 0 <= j < IndexOf(s, c) ==> s[j] != c
    ensures IndexOf(s, c) < |s| ==> s[IndexOf(s, c)] == c
    decreases |s|
  {
    if |s| > 0 && s[0] != c {
      IndexOfFirst(s[1..], c);
    }
  }

  /** The fields joined back with `sep` between consecutive ones. */
  function Join(fields: seq<string>, sep: char): string
    requires |fields| >= 1
  {
    if |fields| == 1 then fields[0]
    else fields[0] + [sep] + Join(fields[1..], sep)
  }

  /** JavaScript `s.split(sep)` for a one-character separator: the maximal
      separator-free pieces, in order, including empty ones. */
  function Split(s: string, sep: char): (fields: seq<string>)
    ensures |fields| >= 1
    decreases |s|
  {
    var i := IndexOf(s, sep);
    if i == |s| then [s]
    else [s[..i]] + Split(s[i + 1..], sep)
  }

  /** The first piece runs up to the first separator; when there is one,
      the second piece is the first piece of what follows it. */
  lemma SplitFront(s: string, sep: char)
    ensures Split(s, sep)[0] == s[..IndexOf(s, sep)]
    ensures IndexOf(s, sep) == |s| ==> |Split(s, sep)| == 1
    ensures IndexOf(s, sep) < |s| ==>
              |Split(s, sep)| >= 2 && Split(s, sep)[1] == Split(s[IndexOf(s, sep) + 1..], sep)[0]
  {
    var i := IndexOf(s, sep);
    if i == |s| {
      assert s[..i] == s;
    }
  }

  /** The first piece is a separator-free prefix that ends at a separator
      or at the end of the string. */
  lemma FieldAfterSeparator(s: string, sep: char)
    ensures var f := Split(s, sep)[0];
            && sep !in f && |f| <= |s| && s[..|f|] == f
            && (|f| == |s| || s[|f|] == sep)
  {
    IndexOfFirst(s, sep);
    SplitFront(s, sep);
  }

  /** `split` yields one more piece than there are separators. */
  lemma {:induction false} SplitCount(s: string, sep: char)
    ensures |Split(s, sep)| == multiset(s)[sep] + 1
    decreases |s|
  {
    var i := IndexOf(s, sep);
    IndexOfFirst(s, sep);
    if i == |s| {
      assert s[..i] == s;
      assert sep !in s;
    } else {
      SplitCount(s[i + 1..], sep);
      assert s == s[..i] + [sep] + s[i + 1..];
      assert sep !in s[..i];
    }
  }

  /** Joining puts a separator between each pair of fields, so the result
      holds at least one fewer separator than there are fields, and at
      least as many as there are fields once some field holds one itself. */
  lemma {:induction false} JoinCount(fields: seq<string>, sep: char)
    requires |fields| >= 1
    ensures multiset(Join(fields, sep))[sep] >= |fields| - 1
    ensures forall k :: 0 <= k < |fields| && sep in fields[k] ==> multiset(Join(fields, sep))[sep] >= |fields|
    decreases |fields|
  {
    if |fields| > 1 {
      var rest := fields[1..];
      JoinCount(rest, sep);
      var j := Join(fields, sep);
      assert j == fields[0] + [sep] + Join(rest, sep);
      assert multiset(j)[sep] == multiset(fields[0])[sep] + 1 + multiset(Join(rest, sep))[sep];
      forall k | 0 <= k < |fields| && sep in fields[k]
        ensures multiset(j)[sep] >= |fields|
      {
        if k > 0 {
          assert rest[k - 1] == fields[k];
        }
      }
    }
  }

  /** The pieces hold no separator and join back to the string. */
  lemma SplitJoinsBack(s: string, sep: char)
    ensures forall k :: 0 <= k < |Split(s, sep)| ==> sep !in Split(s, sep)[k]
    ensures Join(Split(s, sep), sep) == s
  {
    SplitPiecesClean(s, sep);
    SplitRejoins(s, sep);
  }

  lemma {:induction false} SplitPiecesClean(s: string, sep: char)
    ensures forall k :: 0 <= k < |Split(s, sep)| ==> sep !in Split(s, sep)[k]
    decreases |s|
  {
    var i := IndexOf(s, sep);
    FieldAfterSeparator(s, sep);
    SplitFront(s, sep);
    if i < |s| {
      var rest := Split(s[i + 1..], sep);
      SplitPiecesClean(s[i + 1..], sep);
      var fields := Split(s, sep);
      assert fields == [s[..i]] + rest;
      forall k | 0 <= k < |fields|
        ensures sep !in fields[k]
      {
        if k > 0 {
          assert fields[k] == rest[k - 1];
        }
      }
    }
  }

  lemma {:induction false} SplitRejoins(s: string, sep: char)
    ensures Join(Split(s, sep), sep) == s
    decreases |s|
  {
    var i := IndexOf(s, sep);
    SplitFront(s, sep);
    if i == |s| {
      assert s[..i] == s;
    } else {
      assert s[i] == sep by {
        IndexOfFirst(s, sep);
      }
      var head := s[..i];
      var tail := s[i + 1..];
      var rest := Split(tail, sep);
      SplitRejoins(tail, sep);
      var fields := Split(s, sep);
      assert fields == [head] + rest;
      assert fields[1..] == rest;
      assert Join(fields, sep) == head + [sep] + tail;
      assert s == head + [sep] + tail;
    }
  }

  /** Splitting at a first separator peels off the text before it. */
  lemma SplitAfterFirst(head: string, sep: char, rest: string)
    requires sep !in head
    ensures Split(head + [sep] + rest, sep) == [head] + Split(rest, sep)
  {
    var s := head + [sep] + rest;
    var i := IndexOf(s, sep);
    IndexOfFirst(s, sep);
    assert s[|head|] == sep;
    assert forall j :: 0 <= j < |head| ==> s[j] == head[j];
    assert i == |head|;
    assert s[..i] == head;
    assert s[i + 1..] == rest;
  }

  /** `split` undoes `join` when no field holds the separator. */
  lemma {:induction false} SplitJoin(fields: seq<string>, sep: char)
    requires |fields| >= 1
    requires forall k :: 0 <= k < |fields| ==> sep !in fields[k]
    ensures Split(Join(fields, sep), sep) == fields
    decreases |fields|
  {
    if |fields| == 1 {
      var s := fields[0];
      var i := IndexOf(s, sep);
      IndexOfFirst(s, sep);
      assert i == |s|;
      assert s[..i] == s;
    } else {
      var rest := fields[1..];
      assert forall k :: 0 <= k < |rest| ==> sep !in rest[k] by {
        forall k | 0 <= k < |rest|
          ensures sep !in rest[k]
        {
          assert rest[k] == fields[k + 1];
        }
      }
      SplitAfterFirst(fields[0], sep, Join(rest, sep));
      SplitJoin(rest, sep);
      assert fields == [fields[0]] + rest;
    }
  }

  /** JavaScript `toUpperCase` restricted to ASCII letters. */
  function UpperChar(c: char): char {
    if 'a' <= c <= 'z' then (c as int - 32) as char else c
  }

  function ToUpper(s: string): string {
    seq(|s|, i requires 0 <= i < |s| => UpperChar(s[i]))
  }

  /** JavaScript `toLowerCase` restricted to ASCII letters. */
  function LowerChar(c: char): char {
    if 'A' <= c <= 'Z' then (c as int + 32) as char else c
  }

  function ToLower(s: string): string {
    seq(|s|, i requires 0 <= i < |s| => LowerChar(s[i]))
  }

  /** One character of the class `[A-Za-z0-9-]`. */
  predicate IsIdChar(c: char) {
    ('A' <= c <= 'Z') || ('a' <= c <= 'z') || ('0' <= c <= '9') || c == '-'
  }

  /** The regular expression `^[A-Za-z0-9-]{36}$` (equivalently
      `^[-0-9a-zA-Z]{36}$`) matches `s`. */
  predicate IsUuidShaped(s: string) {
    |s| == 36 && forall i :: 0 <= i < |s| ==> IsIdChar(s[i])
  }
}
