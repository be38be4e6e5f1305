/** The allocator workaround: which kernels need it, and the tunables it rewrites. */
module KernelCompat {
  import opened Bytes
  import opened Decimal
  import opened Wrappers
  import opened Text

  // ---------------------------------------------------------------- the kernel

  datatype Kernel = Kernel(major: u32, minor: u32, patch: u32)

  predicate Before(a: Kernel, b: Kernel) {
    || a.major < b.major
    || (a.major == b.major && a.minor < b.minor)
    || (a.major == b.major && a.minor == b.minor && a.patch < b.patch)
  }

  predicate InRange(kernel: Kernel) {
    !Before(kernel, Kernel(6, 19, 0)) && Before(kernel, Kernel(7, 0, 14))
  }

  /** Splits at the first two dots only. */
  function Third(parts: seq<string>): string {
    if |parts| < 3 then [] else Join(parts[2..], '.')
  }

  predicate EndsThePatch(rest: string) {
    rest == [] || rest[0] == '-' || rest[0] == '+' || rest[0] == '.'
  }

  function ParseKernel(release: string): Option<Kernel> {
    var parts := Split(Trim(release), '.');
    if |parts| < 3 then None else ParseParts(parts[0], parts[1], Third(parts))
  }

  function ParseParts(first: string, second: string, tail: string): Option<Kernel> {
    var digits := LeadingDigits(tail);
    var major, minor, patch := ParseU32(first), ParseU32(second), ParseU32(digits);
    if major.None? || minor.None? || patch.None? || |digits| > |tail| || !EndsThePatch(tail[|digits|..]) then None
    else Some(Kernel(major.value, minor.value, patch.value))
  }

  function AffectedKernel(release: string): Option<bool> {
    var kernel := ParseKernel(release);
    if kernel.None? then None else Some(InRange(kernel.value))
  }

  /** The trimmed release is three numbers with dots between, and then nothing more or
      something set off by a dash, a plus or a dot. */
  predicate Reads(release: string, major: string, minor: string, patch: string, rest: string, kernel: Kernel) {
    Trim(release) == major + "." + minor + "." + patch + rest && ReadsParts(major, minor, patch, rest, kernel)
  }

  predicate ReadsParts(major: string, minor: string, patch: string, rest: string, kernel: Kernel) {
    && ParseU32(major) == Some(kernel.major) && ParseU32(minor) == Some(kernel.minor)
    && AllDigits(patch) && ParseU32(patch) == Some(kernel.patch)
    && (rest == [] || rest[0] == '-' || rest[0] == '+' || rest[0] == '.')
  }

  lemma {:induction false} LeadingDigitsAreAPrefix(s: string)
    ensures LeadingDigits(s) <= s && AllDigits(LeadingDigits(s))
  {
    if s != [] && IsDigit(s[0]) {
      LeadingDigitsAreAPrefix(s[1..]);
    }
  }

  lemma NumbersHaveNoDot(s: string)
    requires ParseU32(s).Some?
    ensures Free(s, '.')
  {
  }

  lemma JoinHead(parts: seq<string>)
    requires |parts| >= 2
    ensures Join(parts, '.') == parts[0] + "." + Join(parts[1..], '.')
  {
  }

  lemma PartsRead(first: string, second: string, tail: string) returns (rest: string)
    requires ParseParts(first, second, tail).Some?
    ensures tail == LeadingDigits(tail) + rest
    ensures ReadsParts(first, second, LeadingDigits(tail), rest, ParseParts(first, second, tail).value)
  {
    var digits := LeadingDigits(tail);
    LeadingDigitsAreAPrefix(tail);
    rest := tail[|digits|..];
    assert digits + rest == tail;
  }

  lemma PartsParsed(major: string, minor: string, patch: string, rest: string, kernel: Kernel)
    requires ReadsParts(major, minor, patch, rest, kernel)
    ensures ParseParts(major, minor, patch + rest) == Some(kernel)
  {
    assert EndsThePatch(rest) ==> rest == [] || !IsDigit(rest[0]);
    LeadingDigitsStopAtTheRest(patch, rest);
    assert (patch + rest)[|patch|..] == rest;
  }

  lemma ThreeParts(s: string)
    requires |Split(s, '.')| >= 3
    ensures var parts := Split(s, '.'); s == parts[0] + "." + parts[1] + "." + Third(parts)
  {
    var parts := Split(s, '.');
    JoinOfSplit(s, '.');
    JoinHead(parts);
    JoinHead(parts[1..]);
    assert parts[1..][1..] == parts[2..];
  }

  lemma SplitsInThree(major: string, minor: string, tail: string)
    requires Free(major, '.') && Free(minor, '.')
    ensures var parts := Split(major + "." + minor + "." + tail, '.');
            |parts| >= 3 && parts[0] == major && parts[1] == minor && Third(parts) == tail
  {
    assert major + "." + minor + "." + tail == major + ['.'] + (minor + ['.'] + tail);
    SplitAfterPart(major, minor + ['.'] + tail, '.');
    SplitAfterPart(minor, tail, '.');
    var parts := Split(major + "." + minor + "." + tail, '.');
    assert parts == [major, minor] + Split(tail, '.');
    assert parts[2..] == Split(tail, '.');
    JoinOfSplit(tail, '.');
  }

  lemma ReadsWhenParsed(release: string)
    requires ParseKernel(release).Some?
    ensures exists major, minor, patch, rest :: Reads(release, major, minor, patch, rest, ParseKernel(release).value)
  {
    var parts := Split(Trim(release), '.');
    ThreeParts(Trim(release));
    var tail := Third(parts);
    var rest := PartsRead(parts[0], parts[1], tail);
    assert parts[0] + "." + parts[1] + "." + LeadingDigits(tail) + rest
        == parts[0] + "." + parts[1] + "." + (LeadingDigits(tail) + rest);
    assert Reads(release, parts[0], parts[1], LeadingDigits(tail), rest, ParseKernel(release).value);
  }

  lemma ParsedWhenReads(release: string, major: string, minor: string, patch: string, rest: string, kernel: Kernel)
    requires Reads(release, major, minor, patch, rest, kernel)
    ensures ParseKernel(release) == Some(kernel)
  {
    NumbersHaveNoDot(major);
    NumbersHaveNoDot(minor);
    assert Trim(release) == major + "." + minor + "." + (patch + rest);
    SplitsInThree(major, minor, patch + rest);
    PartsParsed(major, minor, patch, rest, kernel);
  }

  /** A release is understood exactly if it reads as a kernel version, and it is
      affected exactly if that version lies in the broken range. */
  lemma AffectedExactlyInTheRange(release: string, affected: bool)
    ensures AffectedKernel(release) == Some(affected) <==>
            exists major, minor, patch, rest, kernel ::
              Reads(release, major, minor, patch, rest, kernel) && affected == InRange(kernel)
  {
    if AffectedKernel(release) == Some(affected) {
      ReadsWhenParsed(release);
    }
    if major, minor, patch, rest, kernel :|
      Reads(release, major, minor, patch, rest, kernel) && affected == InRange(kernel)
    {
      ParsedWhenReads(release, major, minor, patch, rest, kernel);
    }
  }

  /** The range ends between 7.0.13 and 7.0.14 and begins at 6.19.0. */
  lemma RangeEnds(kernel: Kernel)
    ensures InRange(kernel) <==>
            (kernel.major == 6 && kernel.minor >= 19) || (kernel.major == 7 && kernel.minor == 0 && kernel.patch <= 13)
  {
  }

  // ---------------------------------------------------------------- the tunables

  const COLON: byte := 58

  /** `glibc.pthread.rseq=` */
  const RSEQ_KEY: seq<byte> :=
    [103, 108, 105, 98, 99, 46, 112, 116, 104, 114, 101, 97, 100, 46, 114, 115, 101, 113, 61]
  const RSEQ_FALLBACK: seq<byte> := RSEQ_KEY + [49]

  predicate IsRseq(entry: seq<byte>) {
    RSEQ_KEY <= entry
  }

  function Others(entries: seq<seq<byte>>): seq<seq<byte>> {
    if entries == [] then []
    else (if entries[0] == [] || IsRseq(entries[0]) then [] else [entries[0]]) + Others(entries[1..])
  }

  function WithRseqFallback(inherited: Option<seq<byte>>): seq<byte> {
    var value := if inherited.Some? then inherited.value else [];
    Join(Others(Split(value, COLON)) + [RSEQ_FALLBACK], COLON)
  }

  /** The key spelled out, and the entry that replaces it. */
  lemma RseqIsSpelled()
    ensures COLON == ':' as int && |RSEQ_KEY| == 19 && RSEQ_FALLBACK == RSEQ_KEY + ['1' as int]
    ensures forall i | 0 <= i < 19 :: RSEQ_KEY[i] as char == "glibc.pthread.rseq="[i]
  {
  }

  lemma {:induction false} OthersMean(entries: seq<seq<byte>>)
    ensures forall entry :: entry in Others(entries) <==> entry in entries && entry != [] && !IsRseq(entry)
  {
    if entries != [] {
      OthersMean(entries[1..]);
    }
  }

  /** What is kept stays in its order. */
  lemma {:induction false} OthersKeepTheirOrder(front: seq<seq<byte>>, back: seq<seq<byte>>)
    ensures Others(front + back) == Others(front) + Others(back)
  {
    if front == [] {
      assert front + back == back;
    } else {
      assert (front + back)[1..] == front[1..] + back && (front + back)[0] == front[0];
      OthersKeepTheirOrder(front[1..], back);
    }
  }

  lemma {:induction false} NothingToDrop(entries: seq<seq<byte>>)
    requires forall entry | entry in entries :: entry != [] && !IsRseq(entry)
    ensures Others(entries + [RSEQ_FALLBACK]) == entries
  {
    var all := entries + [RSEQ_FALLBACK];
    if entries == [] {
      assert all[1..] == [] && IsRseq(all[0]);
    } else {
      assert all[1..] == entries[1..] + [RSEQ_FALLBACK] && all[0] == entries[0];
      assert entries[0] in entries && forall entry | entry in entries[1..] :: entry in entries;
      NothingToDrop(entries[1..]);
    }
  }

  lemma SplitsBack(inherited: Option<seq<byte>>)
    ensures var value := if inherited.Some? then inherited.value else [];
            Split(WithRseqFallback(inherited), COLON) == Others(Split(value, COLON)) + [RSEQ_FALLBACK]
  {
    var value := if inherited.Some? then inherited.value else [];
    var parts := Others(Split(value, COLON)) + [RSEQ_FALLBACK];
    JoinOfSplit(value, COLON);
    OthersMean(Split(value, COLON));
    forall i | 0 <= i < |parts| ensures Free(parts[i], COLON) {
      if i < |parts| - 1 {
        assert parts[i] in Split(value, COLON);
      }
    }
    SplitOfJoin(parts, COLON);
  }

  lemma {:induction false} OthersFrom(entries: seq<seq<byte>>) returns (from: seq<nat>)
    ensures |from| == |Others(entries)|
    ensures forall k | 0 <= k < |from| :: from[k] < |entries| && Others(entries)[k] == entries[from[k]]
    ensures forall j, k | 0 <= j < k < |from| :: from[j] < from[k]
    ensures forall i | 0 <= i < |entries| :: i in from <==> entries[i] != [] && !(RSEQ_KEY <= entries[i])
  {
    from := [];
    if entries != [] {
      var n := |entries| - 1;
      from := OthersFrom(entries[..n]);
      OthersKeepTheirOrder(entries[..n], [entries[n]]);
      assert entries == entries[..n] + [entries[n]];
      var one := [entries[n]];
      assert one[1..] == [] && Others(one) == if entries[n] == [] || IsRseq(entries[n]) then [] else one;
      assert forall i | 0 <= i < n :: entries[..n][i] == entries[i];
      if entries[n] != [] && !IsRseq(entries[n]) {
        from := from + [n];
        assert from[|from| - 1] == n;
      }
    }
  }

  /** The rewritten variable carries every entry that is not empty and does not start
      with the key, in order, and after them the fallback. */
  lemma OnlyRseqIsReplaced(inherited: Option<seq<byte>>) returns (from: seq<nat>)
    ensures var entries := Split(if inherited.Some? then inherited.value else [], COLON);
            var out := Split(WithRseqFallback(inherited), COLON);
            && |out| == |from| + 1 && out[|from|] == RSEQ_FALLBACK
            && (forall k | 0 <= k < |from| :: from[k] < |entries| && out[k] == entries[from[k]])
            && (forall j, k | 0 <= j < k < |from| :: from[j] < from[k])
            && (forall i | 0 <= i < |entries| :: i in from <==> entries[i] != [] && !(RSEQ_KEY <= entries[i]))
  {
    SplitsBack(inherited);
    from := OthersFrom(Split(if inherited.Some? then inherited.value else [], COLON));
  }

  /** Rewriting what was rewritten changes nothing. */
  lemma RewritingIsIdempotent(inherited: Option<seq<byte>>)
    ensures WithRseqFallback(Some(WithRseqFallback(inherited))) == WithRseqFallback(inherited)
  {
    var value := if inherited.Some? then inherited.value else [];
    SplitsBack(inherited);
    OthersMean(Split(value, COLON));
    NothingToDrop(Others(Split(value, COLON)));
  }
}
