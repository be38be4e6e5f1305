/** Splitting and joining on a separator, ASCII case, white space. */
module Text {
  predicate Free<T(==)>(s: seq<T>, separator: T) {
    forall i | 0 <= i < |s| :: s[i] != separator
  }

  predicate AllFree<T(==)>(parts: seq<seq<T>>, separator: T) {
    forall i | 0 <= i < |parts| :: Free(parts[i], separator)
  }

  function Split<T(==)>(s: seq<T>, separator: T): (parts: seq<seq<T>>)
    ensures parts != []
  {
    if s == [] then [[]]
    else
      var rest := Split(s[1..], separator);
      if s[0] == separator then [[]] + rest else [[s[0]] + rest[0]] + rest[1..]
  }

  function Join<T>(parts: seq<seq<T>>, separator: T): seq<T> {
    if parts == [] then []
    else if |parts| == 1 then parts[0]
    else parts[0] + [separator] + Join(parts[1..], separator)
  }

  /** Splitting loses nothing and leaves no separator inside a part. */
  lemma {:induction false} JoinOfSplit<T>(s: seq<T>, separator: T)
    ensures AllFree(Split(s, separator), separator)
    ensures Join(Split(s, separator), separator) == s
  {
    if s != [] {
      JoinOfSplit(s[1..], separator);
      var rest := Split(s[1..], separator);
      if s[0] == separator {
        assert ([[]] + rest)[1..] == rest;
      } else {
        var parts := [[s[0]] + rest[0]] + rest[1..];
        assert parts[1..] == rest[1..];
        if |rest| == 1 {
          assert Join(parts, separator) == [s[0]] + rest[0];
        } else {
          assert Join(rest, separator) == rest[0] + [separator] + Join(rest[1..], separator);
          assert Join(parts, separator) == [s[0]] + Join(rest, separator);
        }
      }
    }
  }

  lemma SplitOfFree<T>(s: seq<T>, separator: T)
    requires Free(s, separator)
    ensures Split(s, separator) == [s]
  {
    if s != [] {
      SplitOfFree(s[1..], separator);
      assert [s[0]] + s[1..] == s;
    }
  }

  lemma SplitAfterPart<T>(part: seq<T>, rest: seq<T>, separator: T)
    requires Free(part, separator)
    ensures Split(part + [separator] + rest, separator) == [part] + Split(rest, separator)
  {
    var s := part + [separator] + rest;
    if part == [] {
      assert s[1..] == rest;
    } else {
      assert s[1..] == part[1..] + [separator] + rest;
      SplitAfterPart(part[1..], rest, separator);
      assert [part[0]] + part[1..] == part;
      assert Split(s, separator)[1..] == Split(rest, separator);
    }
  }

  /** The first part ends at the first separator. */
  lemma {:induction false} FirstPart<T>(s: seq<T>, separator: T)
    ensures var part := Split(s, separator)[0]; Free(part, separator) && (s == part || part + [separator] <= s)
  {
    if s != [] && s[0] != separator {
      FirstPart(s[1..], separator);
      var part := Split(s[1..], separator)[0];
      assert Split(s, separator)[0] == [s[0]] + part;
      assert s == [s[0]] + s[1..];
      if s[1..] != part {
        assert [s[0]] + (part + [separator]) == [s[0]] + part + [separator];
        assert part + [separator] == s[1..][..|part| + 1];
        assert s[..|part| + 2] == [s[0]] + s[1..][..|part| + 1];
      }
    }
  }

  /** Splitting undoes joining. */
  lemma {:induction false} SplitOfJoin<T>(parts: seq<seq<T>>, separator: T)
    requires parts != [] && AllFree(parts, separator)
    ensures Split(Join(parts, separator), separator) == parts
  {
    if |parts| == 1 {
      SplitOfFree(parts[0], separator);
    } else {
      SplitAfterPart(parts[0], Join(parts[1..], separator), separator);
      SplitOfJoin(parts[1..], separator);
    }
  }

  // ---------------------------------------------------------------- ASCII case

  function Lower(c: char): char {
    if 'A' <= c <= 'Z' then (c as int - 'A' as int + 'a' as int) as char else c
  }

  function Fold(s: string): (folded: string)
    ensures |folded| == |s|
    ensures forall i | 0 <= i < |s| :: folded[i] == Lower(s[i])
  {
    seq(|s|, i requires 0 <= i < |s| => Lower(s[i]))
  }

  /** Two characters fold alike exactly if they are the same, or the two cases of one
      ASCII letter. */
  lemma LowerMeans(a: char, b: char)
    ensures Lower(a) == Lower(b) <==>
            || a == b
            || ('A' <= a <= 'Z' && b as int == a as int + 32)
            || ('A' <= b <= 'Z' && a as int == b as int + 32)
  {
  }

  predicate EqIgnoreCase(a: string, b: string) {
    Fold(a) == Fold(b)
  }

  // ---------------------------------------------------------------- white space

  predicate IsWhitespace(c: char) {
    var code := c as int;
    || 0x09 <= code <= 0x0D || code == 0x20 || code == 0x85 || code == 0xA0 || code == 0x1680
    || 0x2000 <= code <= 0x200A || code == 0x2028 || code == 0x2029 || code == 0x202F
    || code == 0x205F || code == 0x3000
  }

  predicate Blank(s: string) {
    forall i | 0 <= i < |s| :: IsWhitespace(s[i])
  }

  function TrimStart(s: string): string {
    if s != [] && IsWhitespace(s[0]) then TrimStart(s[1..]) else s
  }

  function TrimEnd(s: string): string {
    if s != [] && IsWhitespace(s[|s| - 1]) then TrimEnd(s[..|s| - 1]) else s
  }

  function Trim(s: string): string {
    TrimEnd(TrimStart(s))
  }

  /** Trimming takes the blanks off either end, and nothing else. */
  lemma TrimMeans(s: string) returns (front: string, back: string)
    ensures s == front + Trim(s) + back && Blank(front) && Blank(back)
    ensures Trim(s) != [] ==> !IsWhitespace(Trim(s)[0]) && !IsWhitespace(Trim(s)[|Trim(s)| - 1])
  {
    front := TrimStartMeans(s);
    back := TrimEndMeans(TrimStart(s));
    if Trim(s) != [] {
      assert Trim(s)[0] == TrimStart(s)[0];
    }
  }

  lemma {:induction false} TrimStartMeans(s: string) returns (front: string)
    ensures s == front + TrimStart(s) && Blank(front)
    ensures TrimStart(s) != [] ==> !IsWhitespace(TrimStart(s)[0])
  {
    front := [];
    if s != [] && IsWhitespace(s[0]) {
      var more := TrimStartMeans(s[1..]);
      front := [s[0]] + more;
    }
  }

  lemma {:induction false} TrimEndMeans(s: string) returns (back: string)
    ensures s == TrimEnd(s) + back && Blank(back)
    ensures TrimEnd(s) != [] ==> !IsWhitespace(TrimEnd(s)[|TrimEnd(s)| - 1])
  {
    back := [];
    if s != [] && IsWhitespace(s[|s| - 1]) {
      var more := TrimEndMeans(s[..|s| - 1]);
      back := more + [s[|s| - 1]];
    }
  }

  lemma TrimStartDropsBlanks(pad: string, s: string)
    requires Blank(pad) && (s == [] || !IsWhitespace(s[0]))
    ensures TrimStart(pad + s) == s
  {
    if pad == [] {
      assert pad + s == s;
    } else {
      assert (pad + s)[1..] == pad[1..] + s;
      TrimStartDropsBlanks(pad[1..], s);
    }
  }

  lemma TrimEndKeepsTheFront(front: string, s: string)
    requires front != [] && !IsWhitespace(front[|front| - 1])
    ensures TrimEnd(front + s) == front + TrimEnd(s)
  {
    if s != [] && IsWhitespace(s[|s| - 1]) {
      assert (front + s)[..|front + s| - 1] == front + s[..|s| - 1];
      TrimEndKeepsTheFront(front, s[..|s| - 1]);
    } else if s == [] {
      assert front + s == front;
    }
  }
}
