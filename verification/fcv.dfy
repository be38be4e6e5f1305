/** Raising the feature-compatibility version (FCV) to the running release, over a
    rolling upgrade in which every member reads the others at different times. */
module FeatureCompatibility {
  import opened Wrappers
  import opened Decimal
  import opened Text

  // ---------------------------------------------------------------- series

  /** `major.minor` of a release. */
  datatype Series = Series(major: u32, minor: u32)

  predicate AtMost(a: Series, b: Series) {
    a.major < b.major || (a.major == b.major && a.minor <= b.minor)
  }

  function Name(series: Series): string {
    Format(series.major) + "." + Format(series.minor)
  }

  function ParseSeries(version: string): Option<Series> {
    ParseTrimmed(Trim(version))
  }

  function ParseTrimmed(version: string): Option<Series> {
    var parts := Split(version, '.');
    if |parts| < 2 then None
    else
      var major := ParseU32(parts[0]);
      var minor := ParseU32(LeadingDigits(parts[1]));
      if major.None? || minor.None? then None else Some(Series(major.value, minor.value))
  }

  function SeriesOf(version: string): Option<string> {
    var series := ParseSeries(version);
    if series.None? then None else Some(Name(series.value))
  }

  lemma {:induction false} TrimEndIsAPrefix(s: string)
    ensures TrimEnd(s) <= s
  {
    if s != [] && IsWhitespace(s[|s| - 1]) {
      TrimEndIsAPrefix(s[..|s| - 1]);
    }
  }

  lemma DigitsAreNotBlank(digits: string)
    requires AllDigits(digits)
    ensures forall i | 0 <= i < |digits| :: !IsWhitespace(digits[i]) && digits[i] != '.'
  {
  }

  lemma {:induction false} FirstPartOfPrefixed(front: string, rest: string)
    requires Free(front, '.')
    ensures Split(front + rest, '.')[0] == front + Split(rest, '.')[0]
  {
    if front == [] {
      assert front + rest == rest;
    } else {
      assert (front + rest)[1..] == front[1..] + rest;
      FirstPartOfPrefixed(front[1..], rest);
    }
  }

  /** Whatever follows the minor number, and whatever blanks surround the version, the
      series is read off exactly. */
  lemma ReadsTheSeries(pad: string, series: Series, rest: string)
    requires Blank(pad) && (rest == [] || !IsDigit(rest[0]))
    ensures ParseSeries(pad + Name(series) + rest) == Some(series)
  {
    TrimsToTheName(pad, series, rest);
    TrimEndIsAPrefix(rest);
    ParsesTrimmed(series, TrimEnd(rest));
  }

  lemma TrimsToTheName(pad: string, series: Series, rest: string)
    requires Blank(pad)
    ensures Trim(pad + Name(series) + rest) == Name(series) + TrimEnd(rest)
  {
    var major, minor, name := Format(series.major), Format(series.minor), Name(series);
    DigitsAreNotBlank(major);
    DigitsAreNotBlank(minor);
    assert name[|name| - 1] == minor[|minor| - 1] && name[0] == major[0];
    assert pad + name + rest == pad + (name + rest);
    TrimStartDropsBlanks(pad, name + rest);
    TrimEndKeepsTheFront(name, rest);
  }

  lemma ParsesTrimmed(series: Series, rest: string)
    requires rest == [] || !IsDigit(rest[0])
    ensures ParseTrimmed(Name(series) + rest) == Some(series)
  {
    var major, minor := Format(series.major), Format(series.minor);
    DigitsAreNotBlank(major);
    DigitsAreNotBlank(minor);
    assert Name(series) + rest == major + ['.'] + (minor + rest);
    SplitAfterPart(major, minor + rest, '.');
    FirstPartOfPrefixed(minor, rest);
    var second := Split(rest, '.')[0];
    assert second == [] || second[0] == rest[0];
    LeadingDigitsStopAtTheRest(minor, second);
    ParseOfFormat(series.major);
    ParseOfFormat(series.minor);
  }

  /** The order of series: by major, then by minor number. */
  lemma AtMostIsTheOrder(a: Series, b: Series)
    ensures AtMost(a, b) <==> a.major * 0x1_0000_0000 + a.minor <= b.major * 0x1_0000_0000 + b.minor
  {
  }

  /** A version has a series exactly if, blanks aside, it is a number, a dot and a number,
      and then nothing more or anything that is no digit. */
  predicate ReadsAs(version: string, major: string, minor: string, rest: string, series: Series) {
    && Trim(version) == major + "." + minor + rest
    && ParseU32(major) == Some(series.major)
    && AllDigits(minor) && ParseU32(minor) == Some(series.minor)
    && (rest == [] || !IsDigit(rest[0]))
  }

  lemma {:induction false} LeadingDigitsAreDigits(s: string)
    ensures LeadingDigits(s) <= s && AllDigits(LeadingDigits(s))
    ensures |LeadingDigits(s)| < |s| ==> !IsDigit(s[|LeadingDigits(s)|])
  {
    if s != [] && IsDigit(s[0]) {
      LeadingDigitsAreDigits(s[1..]);
    }
  }

  lemma NumbersHaveNoDot(s: string)
    requires ParseU32(s).Some?
    ensures Free(s, '.')
  {
  }

  lemma {:induction false} TwoParts(s: string)
    requires |Split(s, '.')| >= 2
    ensures var parts := Split(s, '.'); parts[0] + "." <= s && parts[1] == Split(s[|parts[0]| + 1..], '.')[0]
  {
    if s[0] != '.' {
      TwoParts(s[1..]);
      var rest := Split(s[1..], '.');
      assert s[|[s[0]] + rest[0]| + 1..] == s[1..][|rest[0]| + 1..];
    } else {
      assert s[1..] == s[|Split(s, '.')[0]| + 1..];
    }
  }

  lemma MinorOfTail(tail: string) returns (minor: string, rest: string)
    ensures minor == LeadingDigits(Split(tail, '.')[0]) && tail == minor + rest && AllDigits(minor)
    ensures rest == [] || !IsDigit(rest[0])
  {
    var part := Split(tail, '.')[0];
    minor := LeadingDigits(part);
    FirstPart(tail, '.');
    LeadingDigitsAreDigits(part);
    assert part == tail[..|part|] && minor == part[..|minor|];
    rest := tail[|minor|..];
    assert tail[..|minor|] == minor;
    if |minor| < |part| {
      assert tail[|minor|] == part[|minor|];
    }
  }

  /** The same of a version without blanks around it. */
  lemma TrimmedReads(s: string) returns (major: string, minor: string, rest: string)
    requires ParseTrimmed(s).Some?
    ensures s == major + "." + minor + rest && (rest == [] || !IsDigit(rest[0]))
    ensures ParseU32(major) == Some(ParseTrimmed(s).value.major)
    ensures AllDigits(minor) && ParseU32(minor) == Some(ParseTrimmed(s).value.minor)
  {
    var parts := Split(s, '.');
    major := parts[0];
    minor, rest := PartsOf(s);
  }

  lemma PartsOf(s: string) returns (minor: string, rest: string)
    requires |Split(s, '.')| >= 2
    ensures minor == LeadingDigits(Split(s, '.')[1]) && AllDigits(minor)
    ensures s == Split(s, '.')[0] + "." + minor + rest && (rest == [] || !IsDigit(rest[0]))
  {
    TwoParts(s);
    var major := Split(s, '.')[0];
    var tail := s[|major| + 1..];
    minor, rest := MinorOfTail(tail);
    assert s == major + "." + tail;
    JoinsUp(major, minor, rest);
  }

  lemma ReadWhenParsed(version: string) returns (major: string, minor: string, rest: string)
    requires ParseSeries(version).Some?
    ensures ReadsAs(version, major, minor, rest, ParseSeries(version).value)
  {
    major, minor, rest := TrimmedReads(Trim(version));
  }

  lemma JoinsUp(major: string, minor: string, rest: string)
    ensures major + "." + (minor + rest) == major + "." + minor + rest
  {
  }

  lemma ParsedWhenRead(version: string, major: string, minor: string, rest: string, series: Series)
    requires ReadsAs(version, major, minor, rest, series)
    ensures ParseSeries(version) == Some(series)
  {
    NumbersHaveNoDot(major);
    NumbersHaveNoDot(minor);
    assert Trim(version) == major + ['.'] + (minor + rest);
    SplitAfterPart(major, minor + rest, '.');
    FirstPartOfPrefixed(minor, rest);
    var second := Split(rest, '.')[0];
    FirstPart(rest, '.');
    assert second == [] || second[0] == rest[0];
    LeadingDigitsStopAtTheRest(minor, second);
  }

  lemma SeriesExactlyRead(version: string, series: Series)
    ensures ParseSeries(version) == Some(series) <==> exists major, minor, rest :: ReadsAs(version, major, minor, rest, series)
  {
    if ParseSeries(version) == Some(series) {
      var major, minor, rest := ReadWhenParsed(version);
    }
    if major, minor, rest :| ReadsAs(version, major, minor, rest, series) {
      ParsedWhenRead(version, major, minor, rest, series);
    }
  }

  /** Naming the series of a version loses nothing about it. */
  lemma SeriesSurvivesItsName(version: string)
    ensures SeriesOf(version).Some? <==> ParseSeries(version).Some?
    ensures SeriesOf(version).Some? ==>
              ParseSeries(SeriesOf(version).value) == ParseSeries(version)
              && SeriesOf(SeriesOf(version).value) == SeriesOf(version)
  {
    if ParseSeries(version).Some? {
      ParseOfName(ParseSeries(version).value);
    }
  }

  lemma ParseOfName(series: Series)
    ensures ParseSeries(Name(series)) == Some(series)
  {
    ReadsTheSeries("", series, "");
    assert "" + Name(series) + "" == Name(series);
  }

  // ---------------------------------------------------------------- the decision

  datatype Fcv = Fcv(version: string, target: Option<string>)
  datatype Role = Standalone | Primary | NotPrimary
  datatype MemberSeries = MemberSeries(host: string, healthy: bool, series: Option<string>)

  datatype Reason =
    | InFlight(target: string)
    | OnlyThePrimaryRaises
    | NotHealthy(host: string)
    | NoVersionFrom(host: string)
    | StillOlder(host: string)
    | NoSeries(version: string)
    | AboveTheBinary(version: string)

  datatype Decision = UpToDate | Raise(to: string) | Wait(reason: Reason) | Refuse(reason: Reason)

  predicate Older(member: MemberSeries, running: Series) {
    var series := if member.series.Some? then ParseSeries(member.series.value) else None;
    series.None? || !AtMost(running, series.value)
  }

  function Find(members: seq<MemberSeries>, bad: MemberSeries -> bool): Option<MemberSeries> {
    if members == [] then None
    else if bad(members[0]) then Some(members[0]) else Find(members[1..], bad)
  }

  function Unhealthy(): MemberSeries -> bool {
    (member: MemberSeries) => !member.healthy
  }

  function Silent(): MemberSeries -> bool {
    (member: MemberSeries) => member.series.None?
  }

  function Behind(running: Series): MemberSeries -> bool {
    (member: MemberSeries) => Older(member, running)
  }

  function Decide(running: string, fcv: Fcv, role: Role, members: seq<MemberSeries>): Decision {
    var series := ParseSeries(running);
    if series.None? then Refuse(NoSeries(running))
    else
      var current := ParseSeries(fcv.version);
      if current.None? then Refuse(NoSeries(fcv.version))
      else DecideSeries(series.value, current.value, fcv, role, members)
  }

  function DecideSeries(running: Series, current: Series, fcv: Fcv, role: Role, members: seq<MemberSeries>): Decision {
    if fcv.target.Some? then Wait(InFlight(fcv.target.value))
    else if current == running then UpToDate
    else if !AtMost(current, running) then Refuse(AboveTheBinary(fcv.version))
    else DecideLagging(running, role, members)
  }

  function DecideLagging(running: Series, role: Role, members: seq<MemberSeries>): Decision {
    match role
    case Standalone => Raise(Name(running))
    case NotPrimary => Wait(OnlyThePrimaryRaises)
    case Primary =>
      if Find(members, Unhealthy()).Some? then Wait(NotHealthy(Find(members, Unhealthy()).value.host))
      else if Find(members, Silent()).Some? then Wait(NoVersionFrom(Find(members, Silent()).value.host))
      else if Find(members, Behind(running)).Some? then Wait(StillOlder(Find(members, Behind(running)).value.host))
      else Raise(Name(running))
  }

  /** The first bad member is at `k`. */
  predicate FirstBad(members: seq<MemberSeries>, bad: MemberSeries -> bool, k: int) {
    0 <= k < |members| && bad(members[k]) && forall i | 0 <= i < k :: !bad(members[i])
  }

  lemma {:induction false} FindMeans(members: seq<MemberSeries>, bad: MemberSeries -> bool)
    ensures Find(members, bad).None? <==> forall member | member in members :: !bad(member)
    ensures Find(members, bad).Some? ==> exists k :: FirstBad(members, bad, k) && Find(members, bad).value == members[k]
  {
    if members != [] {
      var rest := members[1..];
      assert members == [members[0]] + rest;
      if bad(members[0]) {
        assert FirstBad(members, bad, 0);
      } else {
        FindMeans(rest, bad);
        if Find(rest, bad).Some? {
          var k :| FirstBad(rest, bad, k) && Find(rest, bad).value == rest[k];
          assert FirstBad(members, bad, k + 1);
        }
      }
    }
  }

  predicate Lags(fcv: Fcv, running: Series) {
    var current := ParseSeries(fcv.version);
    current.Some? && fcv.target.None? && current.value != running && AtMost(current.value, running)
  }

  predicate CaughtUp(member: MemberSeries, running: Series) {
    && member.healthy && member.series.Some? && ParseSeries(member.series.value).Some?
    && AtMost(running, ParseSeries(member.series.value).value)
  }

  lemma NothingFoundMeansCaughtUp(members: seq<MemberSeries>, running: Series)
    ensures Find(members, Unhealthy()).None? && Find(members, Silent()).None? && Find(members, Behind(running)).None?
            <==> forall member | member in members :: CaughtUp(member, running)
  {
    FindMeans(members, Unhealthy());
    FindMeans(members, Silent());
    FindMeans(members, Behind(running));
    assert forall member | member in members ::
        CaughtUp(member, running) <==> member.healthy && member.series.Some? && !Older(member, running);
  }

  lemma LaggingRaises(running: Series, role: Role, members: seq<MemberSeries>)
    ensures DecideLagging(running, role, members).Raise? <==>
              role.Standalone? || (role.Primary? && forall member | member in members :: CaughtUp(member, running))
    ensures DecideLagging(running, role, members).Raise? ==> DecideLagging(running, role, members).to == Name(running)
    ensures !DecideLagging(running, role, members).UpToDate? && !DecideLagging(running, role, members).Refuse?
  {
    NothingFoundMeansCaughtUp(members, running);
  }

  lemma SeriesRaises(running: Series, current: Series, fcv: Fcv, role: Role, members: seq<MemberSeries>)
    ensures var decision := DecideSeries(running, current, fcv, role, members);
            && (decision.Raise? <==>
                  && fcv.target.None? && current != running && AtMost(current, running)
                  && (role.Standalone? || (role.Primary? && forall member | member in members :: CaughtUp(member, running))))
            && (decision.Raise? ==> decision.to == Name(running))
            && (decision.UpToDate? <==> current == running && fcv.target.None?)
            && (decision.Refuse? <==> fcv.target.None? && !AtMost(current, running))
  {
    LaggingRaises(running, role, members);
  }

  /** A raise happens exactly when the FCV lags with no transition in flight, and, on a
      set, this node is the primary and every other member is healthy and reported a
      series no older than the one raised to; the raise is to the running series. */
  lemma RaisesExactlyWhenAllCaughtUp(running: string, fcv: Fcv, role: Role, members: seq<MemberSeries>)
    ensures Decide(running, fcv, role, members).Raise? <==>
              && ParseSeries(running).Some?
              && Lags(fcv, ParseSeries(running).value)
              && (role.Standalone?
                  || (role.Primary? && forall member | member in members :: CaughtUp(member, ParseSeries(running).value)))
    ensures Decide(running, fcv, role, members).Raise? ==>
              Decide(running, fcv, role, members).to == Name(ParseSeries(running).value)
    ensures Decide(running, fcv, role, members).UpToDate? <==>
              ParseSeries(running).Some? && ParseSeries(fcv.version) == ParseSeries(running) && fcv.target.None?
    ensures role.NotPrimary? && ParseSeries(running).Some? && Lags(fcv, ParseSeries(running).value) ==>
              Decide(running, fcv, role, members) == Wait(OnlyThePrimaryRaises)
  {
    var series, current := ParseSeries(running), ParseSeries(fcv.version);
    if series.Some? && current.Some? {
      SeriesRaises(series.value, current.value, fcv, role, members);
    }
  }

  /** `host` is that of the first bad member. */
  ghost predicate NamesFirst(members: seq<MemberSeries>, bad: MemberSeries -> bool, host: string) {
    exists k :: FirstBad(members, bad, k) && members[k].host == host
  }

  /** A set's primary whose FCV lags waits for the first unhealthy, then the first
      silent, then the first older member, in that order. */
  lemma LaggingWaitsForTheFirst(running: Series, members: seq<MemberSeries>)
    requires DecideLagging(running, Primary, members).Wait?
    ensures match DecideLagging(running, Primary, members).reason
            case NotHealthy(host) => NamesFirst(members, Unhealthy(), host)
            case NoVersionFrom(host) =>
              (forall m | m in members :: m.healthy) && NamesFirst(members, Silent(), host)
            case StillOlder(host) =>
              (forall m | m in members :: m.healthy && m.series.Some?) && NamesFirst(members, Behind(running), host)
            case _ => false
  {
    FindMeans(members, Unhealthy());
    FindMeans(members, Silent());
    FindMeans(members, Behind(running));
  }

  /** A refusal comes exactly for a version without a series or an FCV above the
      binary; a transition in flight waits for its target. */
  lemma RefusesExactlyWhatMakesNoSense(running: string, fcv: Fcv, role: Role, members: seq<MemberSeries>)
    ensures var series, current := ParseSeries(running), ParseSeries(fcv.version);
            && (Decide(running, fcv, role, members).Refuse? <==>
                  series.None? || current.None? || (fcv.target.None? && !AtMost(current.value, series.value)))
            && (series.Some? && current.Some? && fcv.target.Some? ==>
                  Decide(running, fcv, role, members) == Wait(InFlight(fcv.target.value)))
  {
    var series, current := ParseSeries(running), ParseSeries(fcv.version);
    if series.Some? && current.Some? {
      SeriesRaises(series.value, current.value, fcv, role, members);
    }
  }

  // ---------------------------------------------------------------- one round

  /** One row of the set status: `answer` is what the member's `buildInfo` gave. */
  datatype Row = Row(host: string, isSelf: bool, healthy: bool, answer: Option<string>)

  function PeerOf(row: Row): MemberSeries {
    MemberSeries(row.host, row.healthy, if row.healthy && row.answer.Some? then SeriesOf(row.answer.value) else None)
  }

  function Peers(rows: seq<Row>): seq<MemberSeries> {
    if rows == [] then []
    else
      var before := Peers(rows[..|rows| - 1]);
      if rows[|rows| - 1].isSelf then before else before + [PeerOf(rows[|rows| - 1])]
  }

  /** The members a round decides on: every other row, in order, with no series for a
      member that is unhealthy, silent or gave no `major.minor`. */
  method ReadPeers(rows: seq<Row>) returns (peers: seq<MemberSeries>)
    ensures peers == Peers(rows)
  {
    peers := [];
    for i := 0 to |rows|
      invariant peers == Peers(rows[..i])
    {
      assert rows[..i + 1][..i] == rows[..i];
      if rows[i].isSelf { continue; }
      var series := None;
      if rows[i].healthy && rows[i].answer.Some? {
        series := SeriesOf(rows[i].answer.value);
      }
      peers := peers + [MemberSeries(rows[i].host, rows[i].healthy, series)];
    }
    assert rows[..|rows|] == rows;
  }

  /** The members decided on are exactly the other rows. */
  lemma {:induction false} PeersAreTheOtherRows(rows: seq<Row>, member: MemberSeries)
    ensures member in Peers(rows) <==> exists k | 0 <= k < |rows| :: !rows[k].isSelf && member == PeerOf(rows[k])
  {
    if rows != [] {
      var n := |rows| - 1;
      PeersAreTheOtherRows(rows[..n], member);
      assert forall k | 0 <= k < n :: rows[..n][k] == rows[k];
    }
  }

  /** Another member of the set is up, and its `buildInfo` names a series at least that. */
  predicate RowCaughtUp(row: Row, running: Series) {
    && row.healthy && row.answer.Some? && ParseSeries(row.answer.value).Some?
    && AtMost(running, ParseSeries(row.answer.value).value)
  }

  /** What the rows of the status decide: the primary raises exactly if the FCV lags, no
      transition is in flight, and every other row is healthy and answered with a series
      no older; and then to its own series. */
  lemma RoundRaisesExactly(running: string, fcv: Fcv, rows: seq<Row>)
    ensures Decide(running, fcv, Primary, Peers(rows)).Raise? <==>
              && ParseSeries(running).Some? && Lags(fcv, ParseSeries(running).value)
              && forall k | 0 <= k < |rows| && !rows[k].isSelf :: RowCaughtUp(rows[k], ParseSeries(running).value)
    ensures Decide(running, fcv, Primary, Peers(rows)).Raise? ==>
              Decide(running, fcv, Primary, Peers(rows)).to == Name(ParseSeries(running).value)
  {
    RaisesExactlyWhenAllCaughtUp(running, fcv, Primary, Peers(rows));
    if ParseSeries(running).Some? {
      forall k | 0 <= k < |rows| && !rows[k].isSelf
        ensures CaughtUp(PeerOf(rows[k]), ParseSeries(running).value) <==> RowCaughtUp(rows[k], ParseSeries(running).value)
        ensures PeerOf(rows[k]) in Peers(rows)
      {
        PeersAreTheOtherRows(rows, PeerOf(rows[k]));
        if rows[k].answer.Some? {
          SeriesSurvivesItsName(rows[k].answer.value);
        }
      }
      forall member | member in Peers(rows)
        ensures exists k | 0 <= k < |rows| :: !rows[k].isSelf && member == PeerOf(rows[k])
      {
        PeersAreTheOtherRows(rows, member);
      }
    }
  }

  lemma NamedIsARow(rows: seq<Row>, bad: MemberSeries -> bool, host: string) returns (k: nat)
    requires NamesFirst(Peers(rows), bad, host)
    ensures k < |rows| && !rows[k].isSelf && rows[k].host == host && bad(PeerOf(rows[k]))
  {
    var i :| FirstBad(Peers(rows), bad, i) && Peers(rows)[i].host == host;
    PeersAreTheOtherRows(rows, Peers(rows)[i]);
    k :| 0 <= k < |rows| && !rows[k].isSelf && Peers(rows)[i] == PeerOf(rows[k]);
  }

  /** A lagging primary that waits names another row of the status: an unhealthy one, else
      one that gave no series, else one that gave an older one. */
  lemma AWaitNamesItsRow(running: Series, rows: seq<Row>) returns (k: nat)
    requires DecideLagging(running, Primary, Peers(rows)).Wait?
    ensures k < |rows| && !rows[k].isSelf
    ensures match DecideLagging(running, Primary, Peers(rows)).reason
            case NotHealthy(host) => rows[k].host == host && !rows[k].healthy
            case NoVersionFrom(host) =>
              rows[k].host == host && rows[k].healthy && (rows[k].answer.None? || ParseSeries(rows[k].answer.value).None?)
            case StillOlder(host) =>
              && rows[k].host == host && rows[k].healthy && rows[k].answer.Some? && ParseSeries(rows[k].answer.value).Some?
              && !AtMost(running, ParseSeries(rows[k].answer.value).value)
            case _ => false
  {
    LaggingWaitsForTheFirst(running, Peers(rows));
    match DecideLagging(running, Primary, Peers(rows)).reason {
      case NotHealthy(host) => k := NamedIsARow(rows, Unhealthy(), host);
      case NoVersionFrom(host) => k := NamedIsARow(rows, Silent(), host);
      case StillOlder(host) => k := NamedIsARow(rows, Behind(running), host);
      case _ => assert false;
    }
    PeersAreTheOtherRows(rows, PeerOf(rows[k]));
    if rows[k].answer.Some? {
      SeriesSurvivesItsName(rows[k].answer.value);
    }
  }

  /** A poll whose members have all caught up: so had every other row's answer. */
  lemma CaughtUpRow(rows: seq<Row>, running: Series, k: int)
    requires forall member | member in Peers(rows) :: CaughtUp(member, running)
    requires 0 <= k < |rows| && !rows[k].isSelf
    ensures rows[k].answer.Some? && ParseSeries(rows[k].answer.value).Some?
    ensures AtMost(running, ParseSeries(rows[k].answer.value).value)
  {
    PeersAreTheOtherRows(rows, PeerOf(rows[k]));
    assert CaughtUp(PeerOf(rows[k]), running);
    SeriesSurvivesItsName(rows[k].answer.value);
  }

  // ---------------------------------------------------------------- a rolling upgrade

  /** What a member is doing: nothing, or a round that has read its own series, then
      the FCV, then the members one by one. */
  datatype Round =
    | Idle
    | Started(running: string)
    | Polling(running: string, fcv: Fcv, rows: seq<Row>)

  /** `series` is the binary's, `commands` the raises sent to it and not yet run. */
  datatype Member = Member(host: string, series: Series, round: Round, commands: seq<string>)

  /** The set's FCV: the series in force and the one a transition moves it to. */
  datatype System = System(members: seq<Member>, current: Series, target: Option<Series>)

  /** `version` is any release text of the member's series; what a round reads of the
      FCV, of a member's health and of its answer is up to the environment. */
  datatype Step =
    | Upgrade(i: nat, series: Series)
    | Begin(i: nat, version: string)
    | ReadFcv(i: nat, fcv: Fcv)
    | ReadMember(i: nat, healthy: bool, answer: Option<string>)
    | Conclude(i: nat, role: Role)
    | GiveUp(i: nat)
    | Accept(i: nat)                                  // mongod starts the transition
    | Drop(i: nat)
    | Finish

  predicate Enabled(s: System, step: Step) {
    step.Finish? || (0 <= step.i < |s.members| && EnabledAt(s, s.members[step.i], step))
  }

  predicate EnabledAt(s: System, member: Member, step: Step) {
    match step
    case Upgrade(_, series) => AtMost(member.series, series)
    case Begin(_, version) => member.round.Idle? && ParseSeries(version) == Some(member.series)
    case ReadFcv(_, _) => member.round.Started?
    case ReadMember(_, _, answer) =>
      && member.round.Polling? && |member.round.rows| < |s.members|
      && (answer.Some? ==> ParseSeries(answer.value) == Some(s.members[|member.round.rows|].series))
    case Conclude(_, role) =>
      && member.round.Polling? && |member.round.rows| == |s.members|
      && (role.Standalone? ==> |s.members| == 1)
    case GiveUp(_) => true
    case Accept(_) => member.commands != []
    case Drop(_) => member.commands != []
    case Finish => true
  }

  function Decided(round: Round, role: Role): Decision
    requires round.Polling?
  {
    Decide(round.running, round.fcv, role, if role.Primary? then Peers(round.rows) else [])
  }

  function ApplyAt(s: System, member: Member, step: Step): Member
    requires EnabledAt(s, member, step)
  {
    match step
    case Upgrade(_, series) => Member(member.host, series, Idle, [])
    case Begin(_, version) => member.(round := Started(SeriesOf(version).value))
    case ReadFcv(_, fcv) => member.(round := Polling(member.round.running, fcv, []))
    case ReadMember(i, healthy, answer) =>
      var j := |member.round.rows|;
      member.(round := member.round.(rows := member.round.rows + [Row(s.members[j].host, j == i, healthy, answer)]))
    case Conclude(_, role) =>
      var decision := Decided(member.round, role);
      member.(round := Idle, commands := member.commands + if decision.Raise? then [decision.to] else [])
    case GiveUp(_) => member.(round := Idle)
    case Accept(_) => member.(commands := member.commands[1..])
    case Drop(_) => member.(commands := member.commands[1..])
    case Finish => member
  }

  /** mongod moves only to a target it can read. */
  function Apply(s: System, step: Step): (t: System)
    requires Enabled(s, step)
    ensures |t.members| == |s.members|
  {
    if step.Finish? then
      if s.target.Some? then s.(current := s.target.value, target := None) else s
    else
      var t := s.(members := s.members[step.i := ApplyAt(s, s.members[step.i], step)]);
      if step.Accept? && ParseSeries(s.members[step.i].commands[0]).Some?
      then t.(target := ParseSeries(s.members[step.i].commands[0]))
      else t
  }

  predicate Possible(s: System, steps: seq<Step>)
    decreases |steps|
  {
    steps == [] || (Enabled(s, steps[0]) && Possible(Apply(s, steps[0]), steps[1..]))
  }

  function Run(s: System, steps: seq<Step>): System
    requires Possible(s, steps)
    decreases |steps|
  {
    if steps == [] then s else Run(Apply(s, steps[0]), steps[1..])
  }

  // ---------------------------------------------------------------- what every step keeps

  /** No member runs a binary older than `series`. */
  predicate EveryMemberRuns(s: System, series: Series) {
    forall j | 0 <= j < |s.members| :: AtMost(series, s.members[j].series)
  }

  /** The answer names a series the member has not gone back from. */
  predicate StillRuns(answer: Option<string>, member: Member) {
    answer.Some? ==> ParseSeries(answer.value).Some? && AtMost(ParseSeries(answer.value).value, member.series)
  }

  predicate RoundFits(s: System, i: int, round: Round)
    requires 0 <= i < |s.members|
  {
    && (!round.Idle? ==> round.running == Name(s.members[i].series))
    && (round.Polling? ==> RowsFit(s, i, round.rows))
  }

  predicate RowsFit(s: System, i: int, rows: seq<Row>) {
    && |rows| <= |s.members|
    && (forall j | 0 <= j < |rows| :: rows[j].isSelf <==> j == i)
    && (forall j | 0 <= j < |rows| :: StillRuns(rows[j].answer, s.members[j]))
  }

  predicate RoundStands(s: System, i: int)
    requires 0 <= i < |s.members|
  {
    RoundFits(s, i, s.members[i].round)
  }

  predicate CommandsStand(s: System, i: int)
    requires 0 <= i < |s.members|
  {
    var member := s.members[i];
    && (forall c | 0 <= c < |member.commands| :: member.commands[c] == Name(member.series))
    && (member.commands != [] ==> EveryMemberRuns(s, member.series))
  }

  predicate FcvStands(s: System) {
    && EveryMemberRuns(s, s.current)
    && (s.target.Some? ==> AtMost(s.current, s.target.value) && EveryMemberRuns(s, s.target.value))
  }

  predicate Invariant(s: System) {
    && FcvStands(s)
    && (forall i | 0 <= i < |s.members| :: RoundStands(s, i))
    && (forall i | 0 <= i < |s.members| :: CommandsStand(s, i))
  }

  /** A set at rest: no round and no command under way, and the FCV below every member. */
  predicate AtRest(s: System) {
    && FcvStands(s)
    && forall i | 0 <= i < |s.members| :: s.members[i].round.Idle? && s.members[i].commands == []
  }

  /** `t` differs from `s` at most in member `i`, whose binary has not gone back. */
  predicate MovesOnly(s: System, t: System, i: int) {
    && |t.members| == |s.members| && 0 <= i < |s.members|
    && (forall j | 0 <= j < |s.members| && j != i :: t.members[j] == s.members[j])
    && AtMost(s.members[i].series, t.members[i].series)
  }

  lemma MoveKeepsRuns(s: System, t: System, i: int, series: Series)
    requires MovesOnly(s, t, i) && EveryMemberRuns(s, series)
    ensures EveryMemberRuns(t, series)
  {
  }

  lemma MoveKeepsAnswers(s: System, t: System, i: int, k: int)
    requires MovesOnly(s, t, i) && 0 <= k < |s.members| && s.members[k].round.Polling? && RoundStands(s, k)
    ensures forall j | 0 <= j < |s.members[k].round.rows| :: StillRuns(s.members[k].round.rows[j].answer, t.members[j])
  {
  }

  /** The claims about all other members, and about the FCV, outlive the move. */
  lemma MoveKeepsTheRest(s: System, t: System, i: int)
    requires Invariant(s) && MovesOnly(s, t, i)
    ensures forall k | 0 <= k < |t.members| && k != i :: RoundStands(t, k) && CommandsStand(t, k)
    ensures EveryMemberRuns(t, s.current) && (s.target.Some? ==> EveryMemberRuns(t, s.target.value))
  {
    MoveKeepsRuns(s, t, i, s.current);
    if s.target.Some? {
      MoveKeepsRuns(s, t, i, s.target.value);
    }
    forall k | 0 <= k < |t.members| && k != i ensures RoundStands(t, k) && CommandsStand(t, k) {
      assert RoundStands(s, k) && CommandsStand(s, k);
      if s.members[k].round.Polling? {
        MoveKeepsAnswers(s, t, i, k);
      }
      if s.members[k].commands != [] {
        MoveKeepsRuns(s, t, i, s.members[k].series);
      }
    }
  }

  lemma RaisesToItsOwnSeries(running: Series, fcv: Fcv, role: Role, members: seq<MemberSeries>)
    requires Decide(Name(running), fcv, role, members).Raise?
    ensures Decide(Name(running), fcv, role, members).to == Name(running)
    ensures role.Standalone? || (role.Primary? && forall member | member in members :: CaughtUp(member, running))
  {
    ParseOfName(running);
    RaisesExactlyWhenAllCaughtUp(Name(running), fcv, role, members);
  }

  /** What a finished poll may raise to: a series every member runs now. */
  lemma RaiseIsSafe(s: System, i: int, role: Role)
    requires 0 <= i < |s.members| && RoundStands(s, i) && EnabledAt(s, s.members[i], Conclude(i, role))
    requires Decided(s.members[i].round, role).Raise?
    ensures Decided(s.members[i].round, role).to == Name(s.members[i].series)
    ensures EveryMemberRuns(s, s.members[i].series)
  {
    var round, running := s.members[i].round, s.members[i].series;
    var peers := if role.Primary? then Peers(round.rows) else [];
    RaisesToItsOwnSeries(running, round.fcv, role, peers);
    forall j | 0 <= j < |s.members| ensures AtMost(running, s.members[j].series) {
      if j != i {
        CaughtUpRow(round.rows, running, j);
        assert StillRuns(round.rows[j].answer, s.members[j]);
      }
    }
  }

  lemma UpgradeKeepsInvariant(s: System, i: nat, series: Series)
    requires Invariant(s) && Enabled(s, Upgrade(i, series))
    ensures Invariant(Apply(s, Upgrade(i, series)))
  {
    MoveKeepsTheRest(s, Apply(s, Upgrade(i, series)), i);
  }

  /** Only what member `i` is doing changes. */
  lemma RoundMoves(s: System, i: nat, round: Round)
    requires Invariant(s) && i < |s.members| && RoundFits(s, i, round)
    ensures Invariant(s.(members := s.members[i := s.members[i].(round := round)]))
  {
    var t := s.(members := s.members[i := s.members[i].(round := round)]);
    MoveKeepsTheRest(s, t, i);
    assert CommandsStand(s, i);
    if s.members[i].commands != [] {
      MoveKeepsRuns(s, t, i, s.members[i].series);
    }
    if round.Polling? {
      forall j | 0 <= j < |round.rows| ensures StillRuns(round.rows[j].answer, t.members[j]) {
        assert StillRuns(round.rows[j].answer, s.members[j]);
      }
    }
    assert RoundStands(t, i) && CommandsStand(t, i);
  }

  lemma OneMoreRow(s: System, i: int, rows: seq<Row>, row: Row)
    requires RowsFit(s, i, rows) && |rows| < |s.members|
    requires (row.isSelf <==> |rows| == i) && StillRuns(row.answer, s.members[|rows|])
    ensures RowsFit(s, i, rows + [row])
  {
  }

  lemma BeginKeepsInvariant(s: System, i: nat, version: string)
    requires Invariant(s) && Enabled(s, Begin(i, version))
    ensures Invariant(Apply(s, Begin(i, version)))
  {
    RoundMoves(s, i, Started(SeriesOf(version).value));
  }

  lemma ReadMemberKeepsInvariant(s: System, i: nat, healthy: bool, answer: Option<string>)
    requires Invariant(s) && Enabled(s, ReadMember(i, healthy, answer))
    ensures Invariant(Apply(s, ReadMember(i, healthy, answer)))
  {
    assert RoundStands(s, i);
    var round := s.members[i].round;
    var row := Row(s.members[|round.rows|].host, |round.rows| == i, healthy, answer);
    OneMoreRow(s, i, round.rows, row);
    RoundMoves(s, i, round.(rows := round.rows + [row]));
  }

  lemma ConcludeKeepsInvariant(s: System, i: nat, role: Role)
    requires Invariant(s) && Enabled(s, Conclude(i, role))
    ensures Invariant(Apply(s, Conclude(i, role)))
  {
    var t := Apply(s, Conclude(i, role));
    MoveKeepsTheRest(s, t, i);
    assert RoundStands(s, i) && CommandsStand(s, i);
    if Decided(s.members[i].round, role).Raise? {
      RaiseIsSafe(s, i, role);
    }
    if t.members[i].commands != [] {
      MoveKeepsRuns(s, t, i, s.members[i].series);
    }
    assert RoundStands(t, i) && CommandsStand(t, i);
  }

  lemma FirstCommandNames(s: System, i: int)
    requires 0 <= i < |s.members| && CommandsStand(s, i) && s.members[i].commands != []
    ensures ParseSeries(s.members[i].commands[0]) == Some(s.members[i].series)
    ensures EveryMemberRuns(s, s.members[i].series)
  {
    ParseOfName(s.members[i].series);
  }

  lemma AcceptKeepsInvariant(s: System, i: nat)
    requires Invariant(s) && Enabled(s, Accept(i))
    ensures Invariant(Apply(s, Accept(i)))
  {
    var series, mid := s.members[i].series, Apply(s, Drop(i));
    FirstCommandNames(s, i);
    QuietStepKeepsInvariant(s, Drop(i));
    MoveKeepsRuns(s, mid, i, series);
    assert AtMost(mid.current, mid.members[i].series);
    TargetKeepsInvariant(mid, series);
  }

  lemma TargetKeepsInvariant(s: System, series: Series)
    requires Invariant(s) && EveryMemberRuns(s, series) && AtMost(s.current, series)
    ensures Invariant(s.(target := Some(series)))
  {
    var t := s.(target := Some(series));
    assert forall other :: EveryMemberRuns(s, other) ==> EveryMemberRuns(t, other);
    forall k | 0 <= k < |t.members| ensures RoundStands(t, k) && CommandsStand(t, k) {
      assert RoundStands(s, k) && CommandsStand(s, k);
    }
  }

  lemma QuietStepKeepsInvariant(s: System, step: Step)
    requires Invariant(s) && Enabled(s, step)
    requires step.ReadFcv? || step.GiveUp? || step.Drop?
    ensures Invariant(Apply(s, step))
  {
    var t, i := Apply(s, step), step.i;
    MoveKeepsTheRest(s, t, i);
    assert RoundStands(s, i) && CommandsStand(s, i);
    if s.members[i].commands != [] {
      MoveKeepsRuns(s, t, i, s.members[i].series);
    }
    if s.members[i].round.Polling? {
      MoveKeepsAnswers(s, t, i, i);
    }
    assert RoundStands(t, i) && CommandsStand(t, i);
  }

  lemma FinishKeepsInvariant(s: System)
    requires Invariant(s)
    ensures Invariant(Apply(s, Finish))
  {
    var t := Apply(s, Finish);
    if s.members != [] {
      assert MovesOnly(s, t, 0);
    }
    assert t.members == s.members;
    assert forall series :: EveryMemberRuns(s, series) ==> EveryMemberRuns(t, series);
    forall k | 0 <= k < |t.members| ensures RoundStands(t, k) && CommandsStand(t, k) {
      assert RoundStands(s, k) && CommandsStand(s, k);
    }
  }

  lemma StepKeepsInvariant(s: System, step: Step)
    requires Invariant(s) && Enabled(s, step)
    ensures Invariant(Apply(s, step))
  {
    match step
    case Upgrade(i, series) => UpgradeKeepsInvariant(s, i, series);
    case Begin(i, version) => BeginKeepsInvariant(s, i, version);
    case ReadMember(i, healthy, answer) => ReadMemberKeepsInvariant(s, i, healthy, answer);
    case Conclude(i, role) => ConcludeKeepsInvariant(s, i, role);
    case Accept(i) => AcceptKeepsInvariant(s, i);
    case Finish => FinishKeepsInvariant(s);
    case _ => QuietStepKeepsInvariant(s, step);
  }

  lemma {:induction false} RunKeepsInvariant(s: System, steps: seq<Step>)
    requires Invariant(s) && Possible(s, steps)
    ensures Invariant(Run(s, steps)) && AtMost(s.current, Run(s, steps).current)
    decreases |steps|
  {
    if steps != [] {
      StepKeepsInvariant(s, steps[0]);
      RunKeepsInvariant(Apply(s, steps[0]), steps[1..]);
    }
  }

  /** In every rolling upgrade, with any number of rounds at once, answers of any age,
      lost commands and commands that run long after their caller gave up: the FCV
      never goes down and no member ever runs a binary below it, nor below the series
      a transition is moving it to. */
  lemma FcvRisesAndStrandsNobody(s: System, before: seq<Step>, after: seq<Step>)
    requires AtRest(s) && Possible(s, before) && Possible(Run(s, before), after)
    ensures var t := Run(Run(s, before), after);
            && AtMost(Run(s, before).current, t.current)
            && EveryMemberRuns(t, t.current)
            && (t.target.Some? ==> EveryMemberRuns(t, t.target.value))
  {
    RunKeepsInvariant(s, before);
    RunKeepsInvariant(Run(s, before), after);
  }

  // ---------------------------------------------------------------- and it does rise

  lemma {:induction false} RunInTwo(s: System, first: seq<Step>, second: seq<Step>)
    requires Possible(s, first) && Possible(Run(s, first), second)
    ensures Possible(s, first + second) && Run(s, first + second) == Run(Run(s, first), second)
    decreases |first|
  {
    if first == [] {
      assert first + second == second;
    } else {
      assert (first + second)[0] == first[0] && (first + second)[1..] == first[1..] + second;
      RunInTwo(Apply(s, first[0]), first[1..], second);
    }
  }

  lemma OneStep(s: System, step: Step)
    requires Enabled(s, step)
    ensures Possible(s, [step]) && Run(s, [step]) == Apply(s, step)
  {
    var steps := [step];
    assert steps[1..] == [] && steps[0] == step;
    assert Run(Apply(s, step), []) == Apply(s, step);
    assert Run(s, steps) == Run(Apply(s, step), steps[1..]);
  }

  /** What node i's poll finds when everybody answers. */
  function AllRows(s: System, i: nat): (rows: seq<Row>)
    ensures |rows| == |s.members|
  {
    seq(|s.members|, j requires 0 <= j < |s.members| => Row(s.members[j].host, j == i, true, Some(Name(s.members[j].series))))
  }

  function WithRound(s: System, i: nat, round: Round): System
    requires i < |s.members|
  {
    s.(members := s.members[i := s.members[i].(round := round)])
  }

  lemma RowsOfMore(s: System, i: nat, n: nat)
    requires n < |s.members|
    ensures AllRows(s, i)[..n + 1] == AllRows(s, i)[..n] + [Row(s.members[n].host, n == i, true, Some(Name(s.members[n].series)))]
  {
  }

  lemma OneAnswer(s: System, member: Member, i: nat, answer: string)
    requires EnabledAt(s, member, ReadMember(i, true, Some(answer)))
    ensures var n := |member.round.rows|;
            ApplyAt(s, member, ReadMember(i, true, Some(answer)))
            == member.(round := member.round.(rows := member.round.rows + [Row(s.members[n].host, n == i, true, Some(answer))]))
  {
  }

  lemma OneMoreAnswers(s: System, i: nat, running: string, fcv: Fcv, n: nat)
    requires i < |s.members| && n < |s.members|
    ensures var start := WithRound(s, i, Polling(running, fcv, AllRows(s, i)[..n]));
            var step := ReadMember(i, true, Some(Name(s.members[n].series)));
            Enabled(start, step) && Apply(start, step) == WithRound(s, i, Polling(running, fcv, AllRows(s, i)[..n + 1]))
  {
    var start := WithRound(s, i, Polling(running, fcv, AllRows(s, i)[..n]));
    ParseOfName(s.members[n].series);
    RowsOfMore(s, i, n);
    OneAnswer(start, start.members[i], i, Name(s.members[n].series));
    assert start.members[n].host == s.members[n].host;
    var after := s.members[i].(round := Polling(running, fcv, AllRows(s, i)[..n + 1]));
    assert start.members[i := after] == s.members[i := after];
  }

  lemma {:induction false} EverybodyAnswers(s: System, i: nat, running: string, fcv: Fcv, n: nat) returns (steps: seq<Step>)
    requires i < |s.members| && n <= |s.members|
    ensures var start := WithRound(s, i, Polling(running, fcv, AllRows(s, i)[..n]));
            Possible(start, steps) && Run(start, steps) == WithRound(s, i, Polling(running, fcv, AllRows(s, i)))
    decreases |s.members| - n
  {
    if n == |s.members| {
      assert AllRows(s, i)[..n] == AllRows(s, i);
      steps := [];
    } else {
      var step := ReadMember(i, true, Some(Name(s.members[n].series)));
      OneMoreAnswers(s, i, running, fcv, n);
      var rest := EverybodyAnswers(s, i, running, fcv, n + 1);
      OneStep(WithRound(s, i, Polling(running, fcv, AllRows(s, i)[..n])), step);
      RunInTwo(WithRound(s, i, Polling(running, fcv, AllRows(s, i)[..n])), [step], rest);
      steps := [step] + rest;
    }
  }

  lemma AFullPollRaises(s: System, i: nat)
    requires i < |s.members| && s.target.None? && EveryMemberRuns(s, s.members[i].series)
    requires AtMost(s.current, s.members[i].series) && s.current != s.members[i].series
    ensures Decide(Name(s.members[i].series), Fcv(Name(s.current), None), Primary, Peers(AllRows(s, i))) == Raise(Name(s.members[i].series))
  {
    var running := s.members[i].series;
    ParseOfName(running);
    ParseOfName(s.current);
    forall k | 0 <= k < |s.members| ensures RowCaughtUp(AllRows(s, i)[k], running) {
      ParseOfName(s.members[k].series);
    }
    RoundRaisesExactly(Name(running), Fcv(Name(s.current), None), AllRows(s, i));
  }

  /** The member has one command, to raise to its own series. */
  function Commanded(s: System, i: nat): System
    requires i < |s.members|
  {
    s.(members := s.members[i := s.members[i].(round := Idle, commands := [Name(s.members[i].series)])])
  }

  lemma ACommandIsCarriedOut(s: System, i: nat) returns (steps: seq<Step>)
    requires i < |s.members|
    ensures Possible(Commanded(s, i), steps) && Run(Commanded(s, i), steps).current == s.members[i].series
    ensures Run(Commanded(s, i), steps).target.None?
  {
    var start := Commanded(s, i);
    ParseOfName(s.members[i].series);
    var accepted := Apply(start, Accept(i));
    assert accepted.target == Some(s.members[i].series);
    OneStep(start, Accept(i));
    OneStep(accepted, Finish);
    RunInTwo(start, [Accept(i)], [Finish]);
    steps := [Accept(i)] + [Finish];
  }

  /** The last steps: the poll is concluded, mongod takes the command and finishes. */
  lemma TheRaiseIsCarriedOut(s: System, i: nat) returns (steps: seq<Step>)
    requires i < |s.members| && s.members[i].commands == [] && s.target.None?
    requires EveryMemberRuns(s, s.members[i].series) && AtMost(s.current, s.members[i].series) && s.current != s.members[i].series
    ensures var polled := WithRound(s, i, Polling(Name(s.members[i].series), Fcv(Name(s.current), None), AllRows(s, i)));
            Possible(polled, steps) && Run(polled, steps).current == s.members[i].series && Run(polled, steps).target.None?
  {
    var polled := WithRound(s, i, Polling(Name(s.members[i].series), Fcv(Name(s.current), None), AllRows(s, i)));
    APollCommands(s, i, polled);
    OneStep(polled, Conclude(i, Primary));
    var rest := ACommandIsCarriedOut(s, i);
    RunInTwo(polled, [Conclude(i, Primary)], rest);
    steps := [Conclude(i, Primary)] + rest;
  }

  lemma APollCommands(s: System, i: nat, polled: System)
    requires i < |s.members| && s.members[i].commands == [] && s.target.None?
    requires EveryMemberRuns(s, s.members[i].series) && AtMost(s.current, s.members[i].series) && s.current != s.members[i].series
    requires polled == WithRound(s, i, Polling(Name(s.members[i].series), Fcv(Name(s.current), None), AllRows(s, i)))
    ensures Enabled(polled, Conclude(i, Primary)) && Apply(polled, Conclude(i, Primary)) == Commanded(s, i)
  {
    AFullPollRaises(s, i);
    ConcludingCommands(s, i, polled.members[i].round, Name(s.members[i].series));
  }

  lemma ConcludingCommands(s: System, i: nat, round: Round, to: string)
    requires i < |s.members| && s.members[i].commands == []
    requires round.Polling? && |round.rows| == |s.members| && Decided(round, Primary) == Raise(to)
    ensures var polled := WithRound(s, i, round);
            && Enabled(polled, Conclude(i, Primary))
            && Apply(polled, Conclude(i, Primary))
               == s.(members := s.members[i := s.members[i].(round := Idle, commands := [to])])
  {
    var polled := WithRound(s, i, round);
    ConcludedMember(polled, polled.members[i], i, to);
    assert polled.members[i := s.members[i].(round := Idle, commands := [to])]
        == s.members[i := s.members[i].(round := Idle, commands := [to])];
  }

  lemma ConcludedMember(s: System, member: Member, i: nat, to: string)
    requires EnabledAt(s, member, Conclude(i, Primary)) && member.commands == [] && Decided(member.round, Primary) == Raise(to)
    ensures ApplyAt(s, member, Conclude(i, Primary)) == member.(round := Idle, commands := [to])
  {
    var decision := Decided(member.round, Primary);
    assert decision.Raise? && decision.to == to;
    assert [] + [to] == [to];
  }

  /** Whenever the FCV lags behind an idle primary with no member on an older binary and
      no transition in flight, one round in which everybody answers raises it to the
      series the primary runs. */
  lemma AFullRoundRaisesTheFcv(s: System, i: nat) returns (steps: seq<Step>)
    requires i < |s.members| && s.members[i].round.Idle? && s.members[i].commands == [] && s.target.None?
    requires EveryMemberRuns(s, s.members[i].series) && AtMost(s.current, s.members[i].series) && s.current != s.members[i].series
    ensures Possible(s, steps) && Run(s, steps).current == s.members[i].series && Run(s, steps).target.None?
  {
    var running, fcv := s.members[i].series, Fcv(Name(s.current), None);
    ParseOfName(running);
    var started := WithRound(s, i, Started(Name(running)));
    var polling := WithRound(s, i, Polling(Name(running), fcv, AllRows(s, i)[..0]));
    assert Apply(s, Begin(i, Name(running))) == started && Apply(started, ReadFcv(i, fcv)) == polling;
    OneStep(s, Begin(i, Name(running)));
    OneStep(started, ReadFcv(i, fcv));
    var reading := EverybodyAnswers(s, i, Name(running), fcv, 0);
    var raising := TheRaiseIsCarriedOut(s, i);
    RunInTwo(polling, reading, raising);
    RunInTwo(started, [ReadFcv(i, fcv)], reading + raising);
    steps := [Begin(i, Name(running))] + ([ReadFcv(i, fcv)] + (reading + raising));
    RunInTwo(s, [Begin(i, Name(running))], [ReadFcv(i, fcv)] + (reading + raising));
  }
}
