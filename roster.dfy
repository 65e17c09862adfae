/** The roster embedded in a training announcement (bot.py, the join handler
    handle_training_button and the cancel handler handle_cancel_registration).

    The announcement is one chat message. Its lines hold three section
    headers, "Игроки:" (players), "Резерв:" (reserve) and "Вратари:"
    (goalies), each followed by numbered entry lines "1. <name>", and a line
    "Лимит игроков: N" giving the player limit. Both handlers split the text
    into lines, sort the lines into the three sections and the remaining
    lines, change the sections and put the text together again. Here that is
    Parse, JoinRoster / CancelRoster and Serialize. */
module RosterText {
  import opened Text

  const PlayersHeader: string := "Игроки:"
  const ReservesHeader: string := "Резерв:"
  const GoaliesHeader: string := "Вратари:"
  const LimitLabel: string := "Лимит игроков:"
  const ReserveMark: string := "(резерв)"
  const ReserveSuffix: string := " (резерв)"

  // ---------------------------------------------------------------------------
  // Entry lines

  /** The entry-line test as bot.py:455 and bot.py:978 write it: after
      leading whitespace the line starts with one of "1." .. "9.". A line
      numbered 10 or more does not pass (see the Findings in README.md). */
  predicate IsEntryLineAsWritten(line: string)
  {
    var t := TrimStart(line);
    |t| >= 2 && '1' <= t[0] <= '9' && t[1] == '.'
  }

  /** A run of one or more ASCII digits followed by '.' starts t. */
  predicate DigitsThenDot(t: string)
  {
    |t| >= 2 && IsDigit(t[0]) && (t[1] == '.' || DigitsThenDot(t[1..]))
  }

  /** The entry-line test as intended: after leading whitespace, a number
      without leading zero followed by '.' ("1.", "9.", "10.", "123."). */
  predicate IsEntryLine(line: string)
  {
    var t := TrimStart(line);
    |t| >= 2 && '1' <= t[0] <= '9' && DigitsThenDot(t)
  }

  /** Every line the source recognises is still recognised. */
  lemma AsWrittenIsEntryLine(line: string)
    requires IsEntryLineAsWritten(line)
    ensures IsEntryLine(line)
  {
  }

  /** The line of the tenth player is not an entry line as written, while it
      is one as intended. */
  lemma TenthEntryMissedAsWritten()
    ensures !IsEntryLineAsWritten("10. Петров П.")
    ensures IsEntryLine("10. Петров П.")
  {
    TenthShape("10. Петров П.");
  }

  /** A line starting "10." is missed as written and recognised as
      intended. */
  lemma TenthShape(line: string)
    requires |line| >= 3 && line[0] == '1' && line[1] == '0' && line[2] == '.'
    ensures !IsEntryLineAsWritten(line) && IsEntryLine(line)
  {
    assert !IsSpace(line[0]) && TrimStart(line) == line;
    assert line[1..][1] == '.' && DigitsThenDot(line[1..]);
  }

  /** "<digits>." followed by anything starts with a digit run and a dot. */
  lemma {:induction false} DigitsThenDotOf(d: string, rest: string)
    requires |d| >= 1 && AllDigits(d)
    ensures DigitsThenDot(d + "." + rest)
    decreases |d|
  {
    var t := d + "." + rest;
    if |d| > 1 {
      assert t[1..] == d[1..] + "." + rest;
      DigitsThenDotOf(d[1..], rest);
    }
  }

  /** A line "<n>.<rest>" with n >= 1 is an entry line. */
  lemma NumberedIsEntryLine(n: nat, rest: string)
    requires n >= 1
    ensures IsEntryLine(NatToString(n) + "." + rest)
  {
    var line := NatToString(n) + "." + rest;
    assert line[0] == NatToString(n)[0];
    assert TrimStart(line) == line;
    DigitsThenDotOf(NatToString(n), rest);
  }

  /** The text after the first '.' of a line: what line.split('.', 1)[1]
      gives for an entry line. */
  function Rest(line: string): string
  {
    match AfterFirst(line, '.')
    case Some(r) => r
    case None => []
  }

  /** The number in front of the first '.' of a line, if that is a number. */
  function LineNumber(line: string): Option<nat>
  {
    var t := TrimStart(line);
    match IndexOf(t, '.')
    case None => None
    case Some(k) => ParseDigits(t[..k])
  }

  /** The line "<n>.<rest>" carries number n and keeps rest after its dot. */
  lemma NumberedLine(n: nat, rest: string)
    requires n >= 1
    ensures LineNumber(NatToString(n) + "." + rest) == Some(n)
    ensures Rest(NatToString(n) + "." + rest) == rest
  {
    var d := NatToString(n);
    var line := d + "." + rest;
    assert line[0] == d[0];
    assert TrimStart(line) == line;
    assert line[|d|] == '.';
    assert line[..|d|] == d;
    assert '.' !in d;
    IndexOfFirst(line, '.', |d|);
    assert line[|d| + 1..] == rest;
    ParseDigitsOfNat(n);
  }

  // ---------------------------------------------------------------------------
  // Classifying lines (the if / elif chain of bot.py:446-472 and 969-986)

  datatype LineKind = PlayersHead | ReservesHead | GoaliesHead | Entry | Plain

  /** Headers are recognised by substring, in this order, before entries.
      Entries use the corrected recogniser IsEntryLine, not the source's
      nine-prefix test (see TenthEntryMissedAsWritten). */
  function Classify(line: string): LineKind
  {
    if Contains(line, PlayersHeader) then PlayersHead
    else if Contains(line, ReservesHeader) then ReservesHead
    else if Contains(line, GoaliesHeader) then GoaliesHead
    else if IsEntryLine(line) then Entry
    else Plain
  }

  datatype Section = NoSection | InPlayers | InReserves | InGoalies

  /** The state of the parse loop: the section last opened and the four lists
      built so far. */
  datatype Scan = Scan(current: Section, other: seq<string>, players: seq<string>,
                       reserves: seq<string>, goalies: seq<string>)

  const Start: Scan := Scan(NoSection, [], [], [], [])

  /** One iteration of the parse loop. A header opens its section and is kept
      with the other lines; an entry line goes to the open section and is
      dropped when no section is open yet; any other line is kept. */
  function Step(s: Scan, line: string): Scan
  {
    match Classify(line)
    case PlayersHead => s.(current := InPlayers, other := s.other + [line])
    case ReservesHead => s.(current := InReserves, other := s.other + [line])
    case GoaliesHead => s.(current := InGoalies, other := s.other + [line])
    case Plain => s.(other := s.other + [line])
    case Entry =>
      match s.current
      case InPlayers => s.(players := s.players + [line])
      case InReserves => s.(reserves := s.reserves + [line])
      case InGoalies => s.(goalies := s.goalies + [line])
      case NoSection => s
  }

  /** The parse loop run over lines, starting in state s. */
  function ScanFrom(s: Scan, lines: seq<string>): Scan
  {
    if lines == [] then s else Step(ScanFrom(s, lines[..|lines| - 1]), lines[|lines| - 1])
  }

  lemma {:induction false} ScanFromAppend(s: Scan, a: seq<string>, b: seq<string>)
    ensures ScanFrom(s, a + b) == ScanFrom(ScanFrom(s, a), b)
    decreases |b|
  {
    if b == [] {
      assert a + b == a;
    } else {
      var b' := b[..|b| - 1];
      assert (a + b)[..|a + b| - 1] == a + b';
      ScanFromAppend(s, a, b');
    }
  }

  // ---------------------------------------------------------------------------
  // The player limit (bot.py:436-442 and 959-965)

  /** The first line holding the limit label, if any. */
  function FirstLimitLine(lines: seq<string>): Option<string>
  {
    if lines == [] then None
    else if Contains(lines[0], LimitLabel) then Some(lines[0])
    else FirstLimitLine(lines[1..])
  }

  /** int(line.split(":")[1].strip()), and 0 where that raises. */
  function LimitValue(line: string): int
  {
    match SecondField(line, ':')
    case None => 0
    case Some(f) =>
      match ParseInt(Trim(f))
      case None => 0
      case Some(n) => n
  }

  /** The player limit of a message: read from the first line holding the
      label, 0 when there is none. */
  function LimitOf(lines: seq<string>): int
  {
    match FirstLimitLine(lines)
    case None => 0
    case Some(line) => LimitValue(line)
  }

  /** The first label line is the line at the first index holding the label;
      without one the limit is 0. */
  lemma {:induction false} LimitFromFirstLabelLine(lines: seq<string>, i: nat)
    requires i < |lines| && Contains(lines[i], LimitLabel)
    requires forall j :: 0 <= j < i ==> !Contains(lines[j], LimitLabel)
    ensures LimitOf(lines) == LimitValue(lines[i])
    decreases i
  {
    if i > 0 {
      LimitFromFirstLabelLine(lines[1..], i - 1);
    }
  }

  lemma {:induction false} LimitWithoutLabel(lines: seq<string>)
    requires forall j :: 0 <= j < |lines| ==> !Contains(lines[j], LimitLabel)
    ensures LimitOf(lines) == 0
  {
    if lines != [] {
      LimitWithoutLabel(lines[1..]);
    }
  }

  lemma {:induction false} FirstLimitLineAppend(a: seq<string>, b: seq<string>)
    ensures FirstLimitLine(a + b) == if FirstLimitLine(a).Some? then FirstLimitLine(a) else FirstLimitLine(b)
  {
    if a == [] {
      assert a + b == b;
    } else {
      assert (a + b)[1..] == a[1..] + b;
      FirstLimitLineAppend(a[1..], b);
    }
  }

  /** line.split(c)[1] of a line "<a><c><b>" where neither a nor b holds c. */
  lemma SecondFieldOf(a: string, c: char, b: string)
    requires c !in a && c !in b
    ensures SecondField(a + [c] + b, c) == Some(b)
  {
    var line := a + [c] + b;
    assert line[..|a|] == a;
    IndexOfFirst(line, c, |a|);
    assert line[|a| + 1..] == b;
    assert Split(line, c) == [a] + Split(b, c);
  }

  /** The limit line written at creation, "Лимит игроков: N", reads back N. */
  lemma LimitValueOfLimitLine(n: nat)
    ensures LimitValue(LimitLabel + " " + NatToString(n)) == n
  {
    var d := NatToString(n);
    var name := "Лимит игроков";
    assert LimitLabel == name + [':'];
    assert ':' !in " " + d;
    assert LimitLabel + " " + d == name + [':'] + (" " + d);
    SecondFieldOf(name, ':', " " + d);
    TrimSpaceThenDigits(d);
    ParseIntOfNat(n);
  }

  // ---------------------------------------------------------------------------
  // The parsed message

  /** The decoded form of one announcement: the limit, the lines outside the
      sections (headers included) and the three sections' entry lines, each
      in message order. */
  datatype Roster = Roster(limit: int, other: seq<string>, players: seq<string>,
                           reserves: seq<string>, goalies: seq<string>)

  function Parse(lines: seq<string>): Roster
  {
    var s := ScanFrom(Start, lines);
    Roster(LimitOf(lines), s.other, s.players, s.reserves, s.goalies)
  }

  /** All entry lines of the roster: players, then reserves, then goalies. */
  function Entries(r: Roster): seq<string>
  {
    r.players + r.reserves + r.goalies
  }

  /** The lines of a list that are not entry lines, in order. */
  function NonEntries(lines: seq<string>): seq<string>
  {
    if lines == [] then []
    else
      var init := NonEntries(lines[..|lines| - 1]);
      if Classify(lines[|lines| - 1]) == Entry then init else init + [lines[|lines| - 1]]
  }

  /** The section lines of a scan state are entry lines taken from lines. */
  predicate SectionsFrom(s: Scan, lines: seq<string>)
  {
    forall l :: l in s.players + s.reserves + s.goalies ==> Classify(l) == Entry && l in lines
  }

  lemma StepSorts(s: Scan, lines: seq<string>, line: string)
    requires SectionsFrom(s, lines)
    ensures Step(s, line).other == if Classify(line) == Entry then s.other else s.other + [line]
    ensures SectionsFrom(Step(s, line), lines + [line])
  {
    var t := Step(s, line);
    if Classify(line) == Entry {
      EntrySorts(s, lines, line, t);
    } else {
      assert t.players == s.players && t.reserves == s.reserves && t.goalies == s.goalies;
      assert t.other == s.other + [line];
      SectionsFromGrow(s, lines, line);
    }
  }

  lemma SectionsFromGrow(s: Scan, lines: seq<string>, line: string)
    requires SectionsFrom(s, lines)
    ensures SectionsFrom(s, lines + [line])
  {
    forall l | l in s.players + s.reserves + s.goalies
      ensures l in lines + [line]
    {
    }
  }

  /** An entry line is added to at most one section and leaves the other
      lines alone. */
  lemma EntrySorts(s: Scan, lines: seq<string>, line: string, t: Scan)
    requires SectionsFrom(s, lines) && Classify(line) == Entry && t == Step(s, line)
    ensures t.other == s.other && SectionsFrom(t, lines + [line])
  {
    assert t == match s.current
      case InPlayers => s.(players := s.players + [line])
      case InReserves => s.(reserves := s.reserves + [line])
      case InGoalies => s.(goalies := s.goalies + [line])
      case NoSection => s;
    forall l | l in t.players + t.reserves + t.goalies
      ensures Classify(l) == Entry && l in lines + [line]
    {
      if l != line {
        assert l in s.players + s.reserves + s.goalies;
      }
    }
  }

  /** Parsing keeps every line that is not an entry line, in order, puts
      only entry lines into the sections and never invents a line. */
  lemma {:induction false} ParseSortsLines(lines: seq<string>)
    ensures ScanFrom(Start, lines).other == NonEntries(lines)
    ensures SectionsFrom(ScanFrom(Start, lines), lines)
  {
    if lines != [] {
      var init := lines[..|lines| - 1];
      var last := lines[|lines| - 1];
      ParseSortsLines(init);
      ParseSortsStep(init, last);
      assert init + [last] == lines;
    }
  }

  lemma ParseSortsStep(init: seq<string>, last: string)
    requires ScanFrom(Start, init).other == NonEntries(init)
    requires SectionsFrom(ScanFrom(Start, init), init)
    ensures ScanFrom(Start, init + [last]).other == NonEntries(init + [last])
    ensures SectionsFrom(ScanFrom(Start, init + [last]), init + [last])
  {
    var lines := init + [last];
    assert lines[..|lines| - 1] == init && lines[|lines| - 1] == last;
    StepSorts(ScanFrom(Start, init), init, last);
  }

  // ---------------------------------------------------------------------------
  // Putting the text together again (bot.py:506-518 and 1013-1025)

  /** What one kept line becomes: a line equal to a header exactly is
      followed by that section's entries. */
  function Expand(r: Roster, line: string): seq<string>
  {
    if line == PlayersHeader then [line] + r.players
    else if line == ReservesHeader then [line] + r.reserves
    else if line == GoaliesHeader then [line] + r.goalies
    else [line]
  }

  function Emit(r: Roster, other: seq<string>): seq<string>
  {
    if other == [] then [] else Emit(r, other[..|other| - 1]) + Expand(r, other[|other| - 1])
  }

  function Serialize(r: Roster): seq<string>
  {
    Emit(r, r.other)
  }

  /** A roster whose kept lines hold no exact header loses its entries when
      put together again: a header recognised by substring but written with
      anything else on its line drops its section. */
  lemma {:induction false} SerializeWithoutExactHeaders(r: Roster, other: seq<string>)
    requires forall l :: l in other ==> l != PlayersHeader && l != ReservesHeader && l != GoaliesHeader
    ensures Emit(r, other) == other
  {
    if other != [] {
      var init := other[..|other| - 1];
      var last := other[|other| - 1];
      forall l | l in init
        ensures l != PlayersHeader && l != ReservesHeader && l != GoaliesHeader
      {
        assert l in other;
      }
      SerializeWithoutExactHeaders(r, init);
      assert last in other;
      assert Emit(r, other) == Emit(r, init) + Expand(r, last);
      assert Expand(r, last) == [last];
      assert other == init + [last];
    }
  }

  // ---------------------------------------------------------------------------
  // Joining (bot.py:988-1010)

  datatype Role = PlayerRole | GoalieRole
  datatype Placement = AsPlayer | AsReserve | AsGoalie
  datatype JoinStep = AlreadyListed | Placed(placement: Placement, roster: Roster)

  /** any(user in p for p in lines) */
  predicate AnyContains(lines: seq<string>, user: string)
  {
    exists i :: 0 <= i < |lines| && Contains(lines[i], user)
  }

  /** The line of a new player: "<n>. <name>". */
  function PlayerLine(n: nat, name: string): string
  {
    NatToString(n) + ". " + name
  }

  /** The line of a new reserve: "<n>. <name> (резерв)". */
  function ReserveLine(n: nat, name: string): string
  {
    PlayerLine(n, name + ReserveSuffix)
  }

  /** Players go to the reserve once the limit is positive and reached. */
  predicate AtCapacity(r: Roster)
  {
    r.limit > 0 && |r.players| >= r.limit
  }

  /** Sign a user up. The user's stored display text appearing in any entry
      line rejects the join; a goalie is always appended to the goalies; a
      player is appended to the players, or to the reserve when the roster is
      at capacity. Existing lines keep their numbers. */
  function JoinRoster(r: Roster, user: string, role: Role): JoinStep
  {
    if AnyContains(Entries(r), user) then AlreadyListed
    else match role
      case GoalieRole =>
        Placed(AsGoalie, r.(goalies := r.goalies + [PlayerLine(|r.goalies| + 1, user)]))
      case PlayerRole =>
        if AtCapacity(r) then
          Placed(AsReserve, r.(reserves := r.reserves + [ReserveLine(|r.reserves| + 1, user)]))
        else
          Placed(AsPlayer, r.(players := r.players + [PlayerLine(|r.players| + 1, user)]))
  }

  lemma ContainsName(prefix: string, name: string, suffix: string)
    ensures Contains(prefix + name + suffix, name)
  {
    assert (prefix + name + suffix)[|prefix|..|prefix| + |name|] == name;
    ContainsSlice(prefix + name + suffix, |prefix|, name);
  }

  /** A join is refused exactly when the user's text is already in an entry
      line, and a refused join changes nothing. */
  lemma JoinRefusedIffListed(r: Roster, user: string, role: Role)
    ensures JoinRoster(r, user, role) == AlreadyListed <==> AnyContains(Entries(r), user)
  {
  }

  /** "<n>. <text>" carries number n. */
  lemma SpacedLineNumber(n: nat, text: string)
    requires n >= 1
    ensures LineNumber(PlayerLine(n, text)) == Some(n)
  {
    var d := NatToString(n);
    assert d + ". " + text == d + "." + (" " + text);
    NumberedLine(n, " " + text);
  }

  /** "<n>. <name><tail>" carries number n and holds the name. */
  lemma NamedLineSpec(n: nat, name: string, tail: string)
    requires n >= 1
    ensures LineNumber(PlayerLine(n, name + tail)) == Some(n)
    ensures Contains(PlayerLine(n, name + tail), name)
  {
    SpacedLineNumber(n, name + tail);
    NamedContains(NatToString(n), name, tail);
  }

  lemma NamedContains(d: string, name: string, tail: string)
    ensures Contains(d + ". " + (name + tail), name)
  {
    ContainsName(d + ". ", name, tail);
    assert d + ". " + name + tail == d + ". " + (name + tail);
  }

  /** A new player or goalie line carries its number and the user's text. */
  lemma PlayerLineSpec(n: nat, user: string)
    requires n >= 1
    ensures LineNumber(PlayerLine(n, user)) == Some(n)
    ensures Contains(PlayerLine(n, user), user)
  {
    NamedLineSpec(n, user, "");
    assert user + "" == user;
  }

  /** A new reserve line carries its number and the user's text. */
  lemma ReserveLineSpec(n: nat, user: string)
    requires n >= 1
    ensures LineNumber(ReserveLine(n, user)) == Some(n)
    ensures Contains(ReserveLine(n, user), user)
  {
    NamedLineSpec(n, user, ReserveSuffix);
  }

  /** Where an accepted join puts the user: a goalie always in the goalies,
      a player in the reserve exactly when the roster is at capacity and in
      the players otherwise. The limit, the other lines and the two other
      sections are unchanged. */
  lemma JoinPlacement(r: Roster, user: string, role: Role)
    requires !AnyContains(Entries(r), user)
    ensures JoinRoster(r, user, role).Placed?
    ensures var j := JoinRoster(r, user, role);
      && j.roster.limit == r.limit && j.roster.other == r.other
      && (j.placement == AsGoalie <==> role == GoalieRole)
      && (j.placement == AsReserve <==> role == PlayerRole && AtCapacity(r))
      && (j.placement == AsPlayer <==> role == PlayerRole && !AtCapacity(r))
      && (j.placement != AsPlayer ==> j.roster.players == r.players)
      && (j.placement != AsReserve ==> j.roster.reserves == r.reserves)
      && (j.placement != AsGoalie ==> j.roster.goalies == r.goalies)
  {
  }

  /** The section an accepted join changes grows by one line at its end; that
      line carries the section's new length as its number and holds the
      user's text. */
  lemma JoinAppendsLine(r: Roster, user: string, role: Role)
    requires !AnyContains(Entries(r), user)
    ensures JoinRoster(r, user, role).Placed?
    ensures var j := JoinRoster(r, user, role);
      var before := SectionOf(r, j.placement);
      var after := SectionOf(j.roster, j.placement);
      && |after| == |before| + 1 && after[..|before|] == before
      && LineNumber(after[|before|]) == Some(|after|)
      && Contains(after[|before|], user)
  {
    var j := JoinRoster(r, user, role);
    var before := SectionOf(r, j.placement);
    var after := SectionOf(j.roster, j.placement);
    if j.placement == AsReserve {
      ReserveLineSpec(|before| + 1, user);
      assert after == before + [ReserveLine(|before| + 1, user)];
    } else {
      PlayerLineSpec(|before| + 1, user);
      assert after == before + [PlayerLine(|before| + 1, user)];
    }
    assert after[..|before|] == before;
  }

  /** The section a placement refers to. */
  function SectionOf(r: Roster, p: Placement): seq<string>
  {
    match p
    case AsPlayer => r.players
    case AsReserve => r.reserves
    case AsGoalie => r.goalies
  }

  /** No double sign-up: once a user has joined, joining again in either
      role is refused. */
  lemma JoinTwiceRefused(r: Roster, user: string, role: Role, again: Role)
    requires JoinRoster(r, user, role).Placed?
    ensures JoinRoster(JoinRoster(r, user, role).roster, user, again) == AlreadyListed
  {
    JoinPlacement(r, user, role);
    JoinAppendsLine(r, user, role);
    var j := JoinRoster(r, user, role);
    var before := SectionOf(r, j.placement);
    var after := SectionOf(j.roster, j.placement);
    var line := after[|before|];
    var es := Entries(j.roster);
    var k := match j.placement
      case AsPlayer => |before|
      case AsReserve => |j.roster.players| + |before|
      case AsGoalie => |j.roster.players| + |j.roster.reserves| + |before|;
    assert es[k] == line;
  }

  // ---------------------------------------------------------------------------
  // Cancelling (bot.py:455-503)

  /** The lines not holding the user's text, in order. */
  function Without(lines: seq<string>, user: string): (kept: seq<string>)
    ensures |kept| <= |lines|
    ensures |kept| < |lines| <==> AnyContains(lines, user)
    ensures forall l :: l in kept ==> l in lines && !Contains(l, user)
  {
    if lines == [] then []
    else
      var init := lines[..|lines| - 1];
      var last := lines[|lines| - 1];
      var kept := Without(init, user);
      assert forall l :: l in init ==> l in lines;
      assert AnyContains(lines, user) <==> AnyContains(init, user) || Contains(last, user) by {
        if AnyContains(lines, user) && !Contains(last, user) {
          var i :| 0 <= i < |lines| && Contains(lines[i], user);
          assert init[i] == lines[i];
        }
        if AnyContains(init, user) {
          var i :| 0 <= i < |init| && Contains(init[i], user);
          assert lines[i] == init[i];
        }
      }
      if Contains(last, user) then kept else kept + [last]
  }

  /** Renumber a section: "<i>." followed by the text after the line's
      first '.', for i = 1..n in order. */
  function Renumber(lines: seq<string>): (out: seq<string>)
    ensures |out| == |lines|
  {
    seq(|lines|, i requires 0 <= i < |lines| => NumberLine(i + 1, lines[i]))
  }

  /** A line renumbered as n: "<n>." and the text after its first '.'. */
  function NumberLine(n: nat, line: string): string
  {
    NatToString(n) + "." + Rest(line)
  }

  /** Every line carries its 1-based position as its number. */
  predicate Numbered(lines: seq<string>)
  {
    forall i :: 0 <= i < |lines| ==> LineNumber(lines[i]) == Some(i + 1)
  }

  /** The line at 0-based position i after renumbering the line before. */
  predicate RenumberedLine(line: string, i: nat, before: string)
  {
    LineNumber(line) == Some(i + 1) && Rest(line) == Rest(before) && IsEntryLine(line)
  }

  /** A renumbered line is an entry line with its number and its old text. */
  lemma NumberLineSpec(n: nat, line: string)
    requires n >= 1
    ensures RenumberedLine(NumberLine(n, line), n - 1, line)
  {
    NumberedLine(n, Rest(line));
    NumberedIsEntryLine(n, Rest(line));
  }

  /** After renumbering, the i-th line is an entry line numbered i + 1 whose
      text after the first '.' is that of the i-th line before. */
  lemma RenumberSpec(lines: seq<string>)
    ensures forall i :: 0 <= i < |lines| ==> RenumberedLine(Renumber(lines)[i], i, lines[i])
  {
    forall i | 0 <= i < |lines|
      ensures RenumberedLine(Renumber(lines)[i], i, lines[i])
    {
      RenumberAt(lines, i);
    }
  }

  lemma RenumberAt(lines: seq<string>, i: nat)
    requires i < |lines|
    ensures RenumberedLine(Renumber(lines)[i], i, lines[i])
  {
    RenumberedOf(Renumber(lines)[i], i + 1, lines[i]);
  }

  lemma RenumberedOf(l: string, n: nat, line: string)
    requires n >= 1 && l == NumberLine(n, line)
    ensures RenumberedLine(l, n - 1, line)
  {
    NumberLineSpec(n, line);
  }

  /** Renumbering keeps every line's text after its first '.'. */
  lemma RenumberKeepsRest(lines: seq<string>)
    ensures forall i :: 0 <= i < |lines| ==> Rest(Renumber(lines)[i]) == Rest(lines[i])
  {
    RenumberSpec(lines);
  }

  /** Renumbering after appending one line. */
  lemma RenumberAppendKeepsRest(lines: seq<string>, last: string)
    ensures forall i :: 0 <= i < |lines| ==> Rest(Renumber(lines + [last])[i]) == Rest(lines[i])
  {
    RenumberKeepsRest(lines + [last]);
  }

  /** Renumbering numbers every line by its position. */
  lemma RenumberNumbers(lines: seq<string>)
    ensures Numbered(Renumber(lines))
  {
    RenumberSpec(lines);
  }

  /** The first reserve's line as a player line (bot.py:487): the text after
      its first '.', stripped, with every "(резерв)" taken out. */
  function PromotedLine(n: nat, reserve: string): string
  {
    NatToString(n) + ". " + RemoveAll(Trim(Rest(reserve)), ReserveMark)
  }

  datatype CancelStep = NotListed | Removed(promoted: bool, roster: Roster)

  /** Cancel a user's sign-up. Every entry line holding the user's text is
      dropped; when one of them was a player's and a reserve is left, the
      first reserve moves to the end of the players at once; then every
      section is renumbered from 1. A user in no entry line is reported. */
  function CancelRoster(r: Roster, user: string): CancelStep
  {
    var players := Without(r.players, user);
    var reserves := Without(r.reserves, user);
    var goalies := Without(r.goalies, user);
    var inPlayers := |players| < |r.players|;
    var inReserves := |reserves| < |r.reserves|;
    var inGoalies := |goalies| < |r.goalies|;
    if !(inPlayers || inReserves || inGoalies) then NotListed
    else
      var promote := inPlayers && |reserves| > 0;
      var players' := if promote then players + [PromotedLine(|players| + 1, reserves[0])] else players;
      var reserves' := if promote then reserves[1..] else reserves;
      Removed(promote, r.(players := Renumber(players'), reserves := Renumber(reserves'),
                          goalies := Renumber(goalies)))
  }

  lemma AnyContainsEntries(r: Roster, user: string)
    ensures AnyContains(Entries(r), user) <==>
      AnyContains(r.players, user) || AnyContains(r.reserves, user) || AnyContains(r.goalies, user)
  {
    var es := Entries(r);
    var p, q := |r.players|, |r.players| + |r.reserves|;
    if AnyContains(es, user) {
      var i :| 0 <= i < |es| && Contains(es[i], user);
      if i < p { assert r.players[i] == es[i]; }
      else if i < q { assert r.reserves[i - p] == es[i]; }
      else { assert r.goalies[i - q] == es[i]; }
    }
    if AnyContains(r.players, user) {
      var i :| 0 <= i < p && Contains(r.players[i], user);
      assert es[i] == r.players[i];
    }
    if AnyContains(r.reserves, user) {
      var i :| 0 <= i < |r.reserves| && Contains(r.reserves[i], user);
      assert es[p + i] == r.reserves[i];
    }
    if AnyContains(r.goalies, user) {
      var i :| 0 <= i < |r.goalies| && Contains(r.goalies[i], user);
      assert es[q + i] == r.goalies[i];
    }
  }

  /** Cancel reports "not signed up", and edits nothing, exactly when no entry
      line holds the user's text. */
  lemma CancelNotListedIff(r: Roster, user: string)
    ensures CancelRoster(r, user) == NotListed <==> !AnyContains(Entries(r), user)
  {
    AnyContainsEntries(r, user);
  }

  /** What an accepted cancel does to the sizes: the limit and other lines
      are unchanged; a reserve is promoted exactly when a player line was
      dropped and a reserve line is left, and then the players gain one line
      and the reserve loses one; goalies only lose the user's lines. */
  lemma CancelShape(r: Roster, user: string)
    requires AnyContains(Entries(r), user)
    ensures CancelRoster(r, user).Removed?
    ensures var c := CancelRoster(r, user);
      var players, reserves := Without(r.players, user), Without(r.reserves, user);
      && c.roster.limit == r.limit && c.roster.other == r.other
      && (c.promoted <==> AnyContains(r.players, user) && |reserves| > 0)
      && |c.roster.players| == |players| + (if c.promoted then 1 else 0)
      && |c.roster.reserves| == |reserves| - (if c.promoted then 1 else 0)
      && |c.roster.goalies| == |Without(r.goalies, user)|
  {
    AnyContainsEntries(r, user);
  }

  /** After a cancel every section is numbered 1..n. */
  lemma CancelNumbers(r: Roster, user: string)
    requires CancelRoster(r, user).Removed?
    ensures var c := CancelRoster(r, user).roster;
      Numbered(c.players) && Numbered(c.reserves) && Numbered(c.goalies)
  {
    var c := CancelRoster(r, user).roster;
    var players, reserves := Without(r.players, user), Without(r.reserves, user);
    var promote := CancelRoster(r, user).promoted;
    var players' := if promote then players + [PromotedLine(|players| + 1, reserves[0])] else players;
    var reserves' := if promote then reserves[1..] else reserves;
    assert c.players == Renumber(players') && c.reserves == Renumber(reserves');
    RenumberNumbers(players');
    RenumberNumbers(reserves');
    RenumberNumbers(Without(r.goalies, user));
  }

  /** After a cancel the kept players and goalies keep, in order, their text
      after the first '.'. */
  lemma CancelKeepsPlayersAndGoalies(r: Roster, user: string)
    requires CancelRoster(r, user).Removed?
    ensures var c := CancelRoster(r, user).roster;
      var players, goalies := Without(r.players, user), Without(r.goalies, user);
      && (forall i :: 0 <= i < |players| ==> Rest(c.players[i]) == Rest(players[i]))
      && (forall i :: 0 <= i < |c.goalies| ==> Rest(c.goalies[i]) == Rest(goalies[i]))
  {
    var c := CancelRoster(r, user);
    var players, reserves := Without(r.players, user), Without(r.reserves, user);
    if c.promoted {
      var last := PromotedLine(|players| + 1, reserves[0]);
      assert c.roster.players == Renumber(players + [last]);
      RenumberAppendKeepsRest(players, last);
    } else {
      assert c.roster.players == Renumber(players);
      RenumberKeepsRest(players);
    }
    RenumberKeepsRest(Without(r.goalies, user));
  }

  /** After a cancel the reserves left keep, in order, their text after the
      first '.', shifted by one when the first was promoted. */
  lemma CancelKeepsReserves(r: Roster, user: string)
    requires CancelRoster(r, user).Removed?
    ensures var c := CancelRoster(r, user);
      var reserves := Without(r.reserves, user);
      && (c.promoted ==>
            forall i :: 0 <= i < |c.roster.reserves| ==> Rest(c.roster.reserves[i]) == Rest(reserves[i + 1]))
      && (!c.promoted ==>
            forall i :: 0 <= i < |c.roster.reserves| ==> Rest(c.roster.reserves[i]) == Rest(reserves[i]))
  {
    var c := CancelRoster(r, user);
    var reserves := Without(r.reserves, user);
    if c.promoted {
      var left := reserves[1..];
      assert c.roster.reserves == Renumber(left);
      RenumberKeepsRest(left);
      forall i | 0 <= i < |c.roster.reserves|
        ensures Rest(c.roster.reserves[i]) == Rest(reserves[i + 1])
      {
        assert left[i] == reserves[i + 1];
      }
    } else {
      assert c.roster.reserves == Renumber(reserves);
      RenumberKeepsRest(reserves);
    }
  }

  /** The promoted line's text after its first '.'. */
  lemma PromotedLineRest(n: nat, reserve: string)
    requires n >= 1
    ensures Rest(PromotedLine(n, reserve)) == " " + RemoveAll(Trim(Rest(reserve)), ReserveMark)
  {
    var rest := RemoveAll(Trim(Rest(reserve)), ReserveMark);
    assert PromotedLine(n, reserve) == NatToString(n) + "." + (" " + rest);
    NumberedLine(n, " " + rest);
  }

  /** The promoted reserve's line ends the players, with the reserve's text
      after its first '.' stripped and "(резерв)" taken out. */
  lemma CancelPromotes(r: Roster, user: string)
    requires CancelRoster(r, user).Removed? && CancelRoster(r, user).promoted
    ensures var c := CancelRoster(r, user).roster;
      var players, reserves := Without(r.players, user), Without(r.reserves, user);
      |c.players| == |players| + 1 &&
      Rest(c.players[|players|]) == " " + RemoveAll(Trim(Rest(reserves[0])), ReserveMark)
  {
    var c := CancelRoster(r, user).roster;
    var players, reserves := Without(r.players, user), Without(r.reserves, user);
    var last := PromotedLine(|players| + 1, reserves[0]);
    assert c.players == Renumber(players + [last]);
    RenumberKeepsRest(players + [last]);
    assert (players + [last])[|players|] == last;
    PromotedLineRest(|players| + 1, reserves[0]);
  }

  /** Joining and then cancelling the same user gives back the sections as
      they were, renumbered, unless a player joined while a reserve was
      waiting (then the cancel promotes that reserve). */
  lemma JoinThenCancel(r: Roster, user: string, role: Role)
    requires !AnyContains(Entries(r), user)
    requires var j := JoinRoster(r, user, role); j.Placed? && (j.placement == AsPlayer ==> r.reserves == [])
    ensures CancelRoster(JoinRoster(r, user, role).roster, user) ==
      Removed(false, r.(players := Renumber(r.players), reserves := Renumber(r.reserves),
                        goalies := Renumber(r.goalies)))
  {
    AnyContainsEntries(r, user);
    JoinPlacement(r, user, role);
    JoinAppendsLine(r, user, role);
    var j := JoinRoster(r, user, role);
    var r1 := j.roster;
    WithoutNone(r.players, user);
    WithoutNone(r.reserves, user);
    WithoutNone(r.goalies, user);
    var before := SectionOf(r, j.placement);
    var after := SectionOf(r1, j.placement);
    assert after == before + [after[|before|]];
    WithoutLast(before, after[|before|], user);
  }

  lemma {:induction false} WithoutNone(lines: seq<string>, user: string)
    requires !AnyContains(lines, user)
    ensures Without(lines, user) == lines
  {
    if lines != [] {
      var init := lines[..|lines| - 1];
      assert forall i :: 0 <= i < |init| ==> init[i] == lines[i];
      WithoutNone(init, user);
      assert !Contains(lines[|lines| - 1], user);
      assert lines == init + [lines[|lines| - 1]];
    }
  }

  lemma WithoutLast(lines: seq<string>, last: string, user: string)
    requires Contains(last, user) && !AnyContains(lines, user)
    ensures Without(lines + [last], user) == lines
  {
    assert (lines + [last])[..|lines|] == lines;
    WithoutNone(lines, user);
  }
}
