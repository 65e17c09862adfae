/** Well-formed announcements: the shape the creation text has and the join
    and cancel handlers keep. For them putting the roster together again
    and reading it back gives the same roster, so the handlers' edits are
    exactly the edits of JoinRoster and CancelRoster. */
module RosterFormat {
  import opened Text
  import opened RosterText

  // ---------------------------------------------------------------------------
  // Lines without ':'

  /** Every header and the limit label end in ':', so a line without ':'
      holds none of them and is an entry line or a plain line. */
  lemma NoColonLine(l: string)
    requires ':' !in l
    ensures !Contains(l, PlayersHeader) && !Contains(l, ReservesHeader) && !Contains(l, GoaliesHeader)
    ensures !Contains(l, LimitLabel)
    ensures Classify(l) == if IsEntryLine(l) then Entry else Plain
  {
    if Contains(l, PlayersHeader) {
      ContainsChar(l, PlayersHeader, |PlayersHeader| - 1);
    }
    if Contains(l, ReservesHeader) {
      ContainsChar(l, ReservesHeader, |ReservesHeader| - 1);
    }
    if Contains(l, GoaliesHeader) {
      ContainsChar(l, GoaliesHeader, |GoaliesHeader| - 1);
    }
    if Contains(l, LimitLabel) {
      ContainsChar(l, LimitLabel, |LimitLabel| - 1);
    }
  }

  /** A line written exactly as a header is classified as that header. */
  lemma HeaderKinds()
    ensures Classify(PlayersHeader) == PlayersHead
    ensures Classify(ReservesHeader) == ReservesHead
    ensures Classify(GoaliesHeader) == GoaliesHead
  {
    ContainsSelf(PlayersHeader);
    ReservesKind();
    GoaliesKind();
  }

  lemma ReservesKind()
    ensures Classify(ReservesHeader) == ReservesHead
  {
    ContainsSelf(ReservesHeader);
    assert PlayersHeader[0] == 'И' && 'И' !in ReservesHeader;
    NotContainsByChar(ReservesHeader, PlayersHeader, 0);
  }

  lemma GoaliesKind()
    ensures Classify(GoaliesHeader) == GoaliesHead
  {
    ContainsSelf(GoaliesHeader);
    assert PlayersHeader[0] == 'И' && 'И' !in GoaliesHeader;
    assert ReservesHeader[0] == 'Р' && 'Р' !in GoaliesHeader;
    NotContainsByChar(GoaliesHeader, PlayersHeader, 0);
    NotContainsByChar(GoaliesHeader, ReservesHeader, 0);
  }

  lemma ContainsSelf(s: string)
    ensures Contains(s, s)
  {
    assert IsPrefix(s, s);
  }

  /** p does not occur in s when one of its characters does not. */
  lemma NotContainsByChar(s: string, p: string, k: nat)
    requires k < |p| && p[k] !in s
    ensures !Contains(s, p)
  {
    if Contains(s, p) {
      ContainsChar(s, p, k);
    }
  }

  lemma HeadersDistinct()
    ensures PlayersHeader != ReservesHeader && PlayersHeader != GoaliesHeader && ReservesHeader != GoaliesHeader
  {
    assert PlayersHeader[0] == 'И' && ReservesHeader[0] == 'Р';
    assert |GoaliesHeader| == 8 && |PlayersHeader| == 7 && |ReservesHeader| == 7;
  }

  /** An entry line that survives a round trip: recognised as an entry, and
      free of ':' (so of every header and the label) and of line breaks. */
  predicate EntryLineOk(l: string)
  {
    IsEntryLine(l) && ':' !in l && '\n' !in l
  }

  predicate AllEntriesOk(lines: seq<string>)
  {
    forall l :: l in lines ==> EntryLineOk(l)
  }

  /** No line holds ':' or a line break. */
  predicate NoBreaks(lines: seq<string>)
  {
    forall l :: l in lines ==> ':' !in l && '\n' !in l
  }

  predicate IsHeader(l: string)
  {
    l == PlayersHeader || l == ReservesHeader || l == GoaliesHeader
  }

  /** h occurs in lines, and only once. */
  predicate Once(lines: seq<string>, h: string)
  {
    h in lines && forall i, j :: 0 <= i < j < |lines| && lines[i] == h ==> lines[j] != h
  }

  /** The shape of an announcement as created: the lines outside the
      sections are the three headers, written exactly and once each, and
      plain lines; entry lines are well formed; no line holds a line break;
      the limit is the one the other lines give. */
  predicate WellFormed(r: Roster)
  {
    && OtherLinesOk(r.other)
    && AllEntriesOk(r.players) && AllEntriesOk(r.reserves) && AllEntriesOk(r.goalies)
    && r.limit == LimitOf(r.other)
  }

  /** The lines outside the sections are the three headers, written exactly
      and once each, and plain lines, none holding a line break. */
  predicate OtherLinesOk(other: seq<string>)
  {
    && (forall l :: l in other ==> '\n' !in l && (IsHeader(l) || Classify(l) == Plain))
    && Once(other, PlayersHeader) && Once(other, ReservesHeader) && Once(other, GoaliesHeader)
  }

  lemma EntriesOk(r: Roster)
    requires WellFormed(r)
    ensures forall l :: l in Entries(r) ==> EntryLineOk(l)
  {
  }

  lemma OnceBefore(lines: seq<string>, h: string, k: nat)
    requires Once(lines, h) && k < |lines| && lines[k] == h
    ensures h !in lines[..k]
  {
    forall i | 0 <= i < k
      ensures lines[..k][i] != h
    {
      assert lines[i] == lines[..k][i];
    }
  }

  // ---------------------------------------------------------------------------
  // Reading back what Serialize wrote

  /** The section opened by the last header among lines. */
  function Opened(lines: seq<string>): Section
  {
    if lines == [] then NoSection
    else
      var l := lines[|lines| - 1];
      if l == PlayersHeader then InPlayers
      else if l == ReservesHeader then InReserves
      else if l == GoaliesHeader then InGoalies
      else Opened(lines[..|lines| - 1])
  }

  /** The parse state after reading back Emit(r, prefix): the prefix as the
      other lines, and each section full once its header has been read. */
  function Seen(r: Roster, prefix: seq<string>): Scan
  {
    Scan(Opened(prefix), prefix,
         if PlayersHeader in prefix then r.players else [],
         if ReservesHeader in prefix then r.reserves else [],
         if GoaliesHeader in prefix then r.goalies else [])
  }

  /** s with entry lines es appended to its open section. */
  function FillOpen(s: Scan, es: seq<string>): Scan
  {
    match s.current
    case InPlayers => s.(players := s.players + es)
    case InReserves => s.(reserves := s.reserves + es)
    case InGoalies => s.(goalies := s.goalies + es)
    case NoSection => s
  }

  /** An entry line goes to the open section. */
  lemma StepEntry(s: Scan, line: string)
    requires Classify(line) == Entry
    ensures Step(s, line) == FillOpen(s, [line])
  {
  }

  lemma FillOpenAppend(s: Scan, a: seq<string>, b: seq<string>)
    ensures FillOpen(FillOpen(s, a), b) == FillOpen(s, a + b)
  {
    assert s.players + a + b == s.players + (a + b);
    assert s.reserves + a + b == s.reserves + (a + b);
    assert s.goalies + a + b == s.goalies + (a + b);
  }

  lemma ScanEntriesStep(s: Scan, init: seq<string>, last: string)
    requires ScanFrom(s, init) == FillOpen(s, init)
    requires Classify(last) == Entry
    ensures ScanFrom(s, init + [last]) == FillOpen(s, init + [last])
  {
    var es := init + [last];
    assert es[..|es| - 1] == init;
    assert ScanFrom(s, es) == Step(FillOpen(s, init), last);
    StepEntry(FillOpen(s, init), last);
    FillOpenAppend(s, init, [last]);
  }

  /** Entry lines read while a section is open all go to that section. */
  lemma {:induction false} ScanEntries(s: Scan, es: seq<string>)
    requires forall l :: l in es ==> Classify(l) == Entry
    ensures ScanFrom(s, es) == FillOpen(s, es)
    decreases |es|
  {
    if es == [] {
      assert s.players + es == s.players && s.reserves + es == s.reserves && s.goalies + es == s.goalies;
    } else {
      var init := es[..|es| - 1];
      forall l | l in init
        ensures Classify(l) == Entry
      {
        assert l in es;
      }
      ScanEntries(s, init);
      assert es[|es| - 1] in es;
      ScanEntriesStep(s, init, es[|es| - 1]);
      TakeOneMore(es, |es|);
      assert es[..|es|] == es;
    }
  }

  /** Reading back the lines a header expands to. */
  lemma ReadSection(s: Scan, h: string, section: seq<string>)
    requires IsHeader(h)
    requires AllEntriesOk(section)
    ensures ScanFrom(s, [h] + section) == FillOpen(Step(s, h), section)
  {
    HeaderKinds();
    ScanFromAppend(s, [h], section);
    assert ScanFrom(s, [h]) == Step(s, h);
    forall l | l in section
      ensures Classify(l) == Entry
    {
      NoColonLine(l);
    }
    ScanEntries(Step(s, h), section);
  }

  lemma EmitAppend(r: Roster, prefix: seq<string>, l: string)
    ensures Emit(r, prefix + [l]) == Emit(r, prefix) + Expand(r, l)
  {
    assert (prefix + [l])[..|prefix|] == prefix;
  }

  /** A plain line is kept and leaves the open section as it was. */
  lemma SeenPlain(r: Roster, prefix: seq<string>, l: string)
    requires !IsHeader(l) && Classify(l) == Plain
    ensures ScanFrom(Seen(r, prefix), Expand(r, l)) == Seen(r, prefix + [l])
  {
    assert Expand(r, l) == [l];
    assert ScanFrom(Seen(r, prefix), [l]) == Step(Seen(r, prefix), l);
    assert (prefix + [l])[..|prefix|] == prefix;
  }

  /** The section a header opens. */
  function HeaderSection(h: string): Section
  {
    if h == PlayersHeader then InPlayers
    else if h == ReservesHeader then InReserves
    else if h == GoaliesHeader then InGoalies
    else NoSection
  }

  /** Reading a header: its section is opened and the header is kept. */
  lemma StepHeader(s: Scan, h: string)
    requires IsHeader(h)
    ensures Step(s, h) == s.(current := HeaderSection(h), other := s.other + [h])
  {
    HeaderKinds();
  }

  /** The parse state after a header read for the first time: the section
      is open, and filling it with the section's entries gives Seen. The
      header is a parameter so that the solver does not evaluate Classify on
      the literal. */
  lemma SeenAfterHeader(r: Roster, prefix: seq<string>, h: string, section: seq<string>)
    requires IsHeader(h) && h !in prefix
    requires section == Expand(r, h)[1..]
    ensures Expand(r, h) == [h] + section
    ensures FillOpen(Step(Seen(r, prefix), h), section) == Seen(r, prefix + [h])
  {
    var s := Seen(r, prefix);
    StepHeader(s, h);
    FillAfterHeader(r, prefix, h, section, s.(current := HeaderSection(h), other := prefix + [h]));
  }

  /** Filling the section a first header opened gives Seen. */
  lemma FillAfterHeader(r: Roster, prefix: seq<string>, h: string, section: seq<string>, t: Scan)
    requires IsHeader(h) && h !in prefix
    requires section == Expand(r, h)[1..]
    requires t == Seen(r, prefix).(current := HeaderSection(h), other := prefix + [h])
    ensures FillOpen(t, section) == Seen(r, prefix + [h])
  {
    var p := prefix + [h];
    HeadersDistinct();
    assert p[..|prefix|] == prefix;
    assert Opened(p) == HeaderSection(h);
    SeenAppend(r, prefix, h);
    if h == PlayersHeader {
      assert FillOpen(t, section) == t.(players := section);
    } else if h == ReservesHeader {
      assert FillOpen(t, section) == t.(reserves := section);
    } else {
      assert FillOpen(t, section) == t.(goalies := section);
    }
  }

  /** Which sections are full after one more line. */
  lemma SeenAppend(r: Roster, prefix: seq<string>, l: string)
    ensures var s, t := Seen(r, prefix), Seen(r, prefix + [l]);
      && t.other == prefix + [l]
      && t.players == (if l == PlayersHeader then r.players else s.players)
      && t.reserves == (if l == ReservesHeader then r.reserves else s.reserves)
      && t.goalies == (if l == GoaliesHeader then r.goalies else s.goalies)
  {
  }

  /** A header read for the first time opens its section, which then fills
      with that section's entries. */
  lemma SeenHeader(r: Roster, prefix: seq<string>, h: string)
    requires IsHeader(h) && h !in prefix
    requires AllEntriesOk(r.players) && AllEntriesOk(r.reserves) && AllEntriesOk(r.goalies)
    ensures ScanFrom(Seen(r, prefix), Expand(r, h)) == Seen(r, prefix + [h])
  {
    var section := Expand(r, h)[1..];
    SeenAfterHeader(r, prefix, h, section);
    assert section == r.players || section == r.reserves || section == r.goalies;
    ReadSection(Seen(r, prefix), h, section);
  }

  /** A header of the other lines does not occur before its position. */
  lemma HeaderNotBefore(other: seq<string>, k: nat)
    requires Once(other, PlayersHeader) && Once(other, ReservesHeader) && Once(other, GoaliesHeader)
    requires 0 < k <= |other| && IsHeader(other[k - 1])
    ensures other[k - 1] !in other[..k - 1]
  {
    var l := other[k - 1];
    if l == PlayersHeader {
      OnceBefore(other, PlayersHeader, k - 1);
    } else if l == ReservesHeader {
      OnceBefore(other, ReservesHeader, k - 1);
    } else {
      OnceBefore(other, GoaliesHeader, k - 1);
    }
  }

  /** One more other line read back. */
  lemma EmitScanStep(r: Roster, prefix: seq<string>, l: string)
    requires AllEntriesOk(r.players) && AllEntriesOk(r.reserves) && AllEntriesOk(r.goalies)
    requires IsHeader(l) || Classify(l) == Plain
    requires IsHeader(l) ==> l !in prefix
    requires ScanFrom(Start, Emit(r, prefix)) == Seen(r, prefix)
    ensures ScanFrom(Start, Emit(r, prefix + [l])) == Seen(r, prefix + [l])
  {
    EmitAppend(r, prefix, l);
    ScanFromAppend(Start, Emit(r, prefix), Expand(r, l));
    if IsHeader(l) {
      SeenHeader(r, prefix, l);
    } else {
      SeenPlain(r, prefix, l);
    }
  }

  lemma TakeOneMore(lines: seq<string>, k: nat)
    requires 0 < k <= |lines|
    ensures lines[..k] == lines[..k - 1] + [lines[k - 1]]
  {
  }

  /** Reading back the first k other lines and what they expand to. */
  lemma {:induction false} EmitScan(r: Roster, k: nat)
    requires WellFormed(r) && k <= |r.other|
    ensures ScanFrom(Start, Emit(r, r.other[..k])) == Seen(r, r.other[..k])
  {
    if k == 0 {
      assert r.other[..0] == [];
    } else {
      var prefix := r.other[..k - 1];
      var l := r.other[k - 1];
      EmitScan(r, k - 1);
      TakeOneMore(r.other, k);
      assert l in r.other;
      if IsHeader(l) {
        HeaderNotBefore(r.other, k);
      }
      EmitScanStep(r, prefix, l);
    }
  }

  /** Lines none of which holds the label give no limit line. */
  lemma {:induction false} NoLimitLine(lines: seq<string>)
    requires forall l :: l in lines ==> !Contains(l, LimitLabel)
    ensures FirstLimitLine(lines) == None
  {
    if lines != [] {
      assert forall l :: l in lines[1..] ==> l in lines;
      NoLimitLine(lines[1..]);
    }
  }

  /** The entries put back do not change which line gives the limit. */
  lemma {:induction false} EmitLimitLine(r: Roster, other: seq<string>)
    requires forall l :: l in Entries(r) ==> EntryLineOk(l)
    ensures FirstLimitLine(Emit(r, other)) == FirstLimitLine(other)
  {
    if other != [] {
      var init := other[..|other| - 1];
      var l := other[|other| - 1];
      EmitLimitLine(r, init);
      FirstLimitLineAppend(Emit(r, init), Expand(r, l));
      FirstLimitLineAppend(init, [l]);
      ExpandLimitLine(r, l);
      assert other == init + [l];
    }
  }

  /** The entries a line expands to hold no limit label. */
  lemma ExpandLimitLine(r: Roster, l: string)
    requires forall e :: e in Entries(r) ==> EntryLineOk(e)
    ensures FirstLimitLine(Expand(r, l)) == FirstLimitLine([l])
  {
    var section := Expand(r, l)[1..];
    assert Expand(r, l) == [l] + section;
    forall e | e in section
      ensures !Contains(e, LimitLabel)
    {
      assert e in Entries(r);
      NoColonLine(e);
    }
    NoLimitLine(section);
    FirstLimitLineAppend([l], section);
  }

  /** Parse(Serialize(r)) == r: a well-formed roster put together again reads
      back as itself. */
  lemma ParseSerialize(r: Roster)
    requires WellFormed(r)
    ensures Parse(Serialize(r)) == r
  {
    EmitScan(r, |r.other|);
    assert r.other[..|r.other|] == r.other;
    EntriesOk(r);
    EmitLimitLine(r, r.other);
  }

  /** Every line Serialize writes is an other line or an entry line. */
  lemma {:induction false} EmitLines(r: Roster, other: seq<string>)
    ensures forall l :: l in Emit(r, other) ==> l in other || l in Entries(r)
  {
    if other != [] {
      var init := other[..|other| - 1];
      EmitLines(r, init);
      assert forall l :: l in init ==> l in other;
    }
  }

  /** The message text of a roster: its lines joined by line breaks. */
  function MessageText(r: Roster): string
  {
    JoinWith(Serialize(r), '\n')
  }

  /** The message text of a well-formed roster, split at its line breaks and
      parsed, gives the roster back. */
  lemma ParseMessageText(r: Roster)
    requires WellFormed(r)
    ensures Parse(Split(MessageText(r), '\n')) == r
  {
    var lines := Serialize(r);
    EmitLines(r, r.other);
    EntriesOk(r);
    forall i | 0 <= i < |lines|
      ensures '\n' !in lines[i]
    {
      assert lines[i] in lines;
    }
    ParseSerialize(r);
    assert Parse([]).other == [];
    assert PlayersHeader in Parse(lines).other;
    SplitJoin(lines, '\n');
  }
}

module RosterEdits {
  import opened Text
  import opened RosterText
  import opened RosterFormat

  // ---------------------------------------------------------------------------
  // The lines the handlers write

  lemma DigitsHaveNoBreaks(n: nat)
    ensures ':' !in NatToString(n) && '\n' !in NatToString(n)
  {
  }

  /** "<n>. <text>" is a well-formed entry line when text holds neither ':'
      nor a line break. */
  lemma PlayerLineOk(n: nat, text: string)
    requires n >= 1 && ':' !in text && '\n' !in text
    ensures EntryLineOk(PlayerLine(n, text))
  {
    var d := NatToString(n);
    assert PlayerLine(n, text) == d + "." + (" " + text);
    NumberedIsEntryLine(n, " " + text);
    DigitsHaveNoBreaks(n);
  }

  lemma RestChars(line: string)
    ensures forall c :: c in Rest(line) ==> c in line
  {
    match AfterFirst(line, '.')
    case None =>
    case Some(rest) =>
      var i :| 0 <= i < |line| && line[i] == '.' && '.' !in line[..i] && rest == line[i + 1..];
  }

  /** A renumbered line is well formed when the line was free of ':' and of
      line breaks. */
  lemma NumberLineOk(n: nat, line: string)
    requires n >= 1 && ':' !in line && '\n' !in line
    ensures EntryLineOk(NumberLine(n, line))
  {
    RestChars(line);
    NumberedIsEntryLine(n, Rest(line));
    DigitsHaveNoBreaks(n);
  }

  lemma RenumberOk(lines: seq<string>)
    requires forall l :: l in lines ==> ':' !in l && '\n' !in l
    ensures forall l :: l in Renumber(lines) ==> EntryLineOk(l)
  {
    forall i | 0 <= i < |lines|
      ensures EntryLineOk(Renumber(lines)[i])
    {
      assert lines[i] in lines;
      NumberLineOk(i + 1, lines[i]);
    }
  }

  lemma TrimChars(s: string)
    ensures forall c :: c in Trim(s) ==> c in s
  {
    var t := TrimStart(s);
    assert forall c :: c in TrimEnd(t) ==> c in t;
    assert forall c :: c in t ==> c in s;
  }

  /** The promoted reserve's line is well formed when the reserve's was. */
  lemma PromotedLineOk(n: nat, reserve: string)
    requires n >= 1 && ':' !in reserve && '\n' !in reserve
    ensures EntryLineOk(PromotedLine(n, reserve))
  {
    var text := RemoveAll(Trim(Rest(reserve)), ReserveMark);
    RestChars(reserve);
    TrimChars(Rest(reserve));
    assert PromotedLine(n, reserve) == PlayerLine(n, text);
    PlayerLineOk(n, text);
  }

  // ---------------------------------------------------------------------------
  // Join and cancel keep announcements well formed

  lemma EntriesHaveNoBreaks(lines: seq<string>)
    requires AllEntriesOk(lines)
    ensures NoBreaks(lines)
  {
  }

  lemma RenumberAllOk(lines: seq<string>)
    requires NoBreaks(lines)
    ensures AllEntriesOk(Renumber(lines))
  {
    RenumberOk(lines);
  }

  lemma WithoutNoBreaks(lines: seq<string>, user: string)
    requires NoBreaks(lines)
    ensures NoBreaks(Without(lines, user))
  {
  }

  /** One more well-formed line keeps a section's lines well formed. */
  lemma AppendOk(lines: seq<string>, line: string)
    requires AllEntriesOk(lines) && EntryLineOk(line)
    ensures AllEntriesOk(lines + [line])
  {
  }

  /** The sections after a join by a user whose text holds neither ':' nor a
      line break are well-formed entry lines. */
  lemma JoinEntriesOk(r: Roster, user: string, role: Role)
    requires AllEntriesOk(r.players) && AllEntriesOk(r.reserves) && AllEntriesOk(r.goalies)
    requires ':' !in user && '\n' !in user
    requires JoinRoster(r, user, role).Placed?
    ensures var r' := JoinRoster(r, user, role).roster;
      AllEntriesOk(r'.players) && AllEntriesOk(r'.reserves) && AllEntriesOk(r'.goalies)
      && r'.other == r.other && r'.limit == r.limit
  {
    if role == GoalieRole {
      PlayerLineOk(|r.goalies| + 1, user);
      AppendOk(r.goalies, PlayerLine(|r.goalies| + 1, user));
    } else if AtCapacity(r) {
      PlayerLineOk(|r.reserves| + 1, user + ReserveSuffix);
      AppendOk(r.reserves, ReserveLine(|r.reserves| + 1, user));
    } else {
      PlayerLineOk(|r.players| + 1, user);
      AppendOk(r.players, PlayerLine(|r.players| + 1, user));
    }
  }

  /** A join by a user whose text holds neither ':' nor a line break keeps the
      announcement well formed. */
  lemma JoinKeepsWellFormed(r: Roster, user: string, role: Role)
    requires WellFormed(r) && ':' !in user && '\n' !in user
    requires JoinRoster(r, user, role).Placed?
    ensures WellFormed(JoinRoster(r, user, role).roster)
  {
    JoinEntriesOk(r, user, role);
  }

  /** After a cancel the players are well-formed entry lines. */
  lemma CancelPlayersOk(r: Roster, user: string)
    requires NoBreaks(r.players) && NoBreaks(r.reserves)
    requires CancelRoster(r, user).Removed?
    ensures AllEntriesOk(CancelRoster(r, user).roster.players)
  {
    var c := CancelRoster(r, user);
    var players, reserves := Without(r.players, user), Without(r.reserves, user);
    WithoutNoBreaks(r.players, user);
    if c.promoted {
      var last := PromotedLine(|players| + 1, reserves[0]);
      assert reserves[0] in reserves;
      PromotedLineOk(|players| + 1, reserves[0]);
      assert NoBreaks(players + [last]);
      assert c.roster.players == Renumber(players + [last]);
      RenumberAllOk(players + [last]);
    } else {
      assert c.roster.players == Renumber(players);
      RenumberAllOk(players);
    }
  }

  /** After a cancel the reserves and goalies are well-formed entry lines. */
  lemma CancelReservesGoaliesOk(r: Roster, user: string)
    requires NoBreaks(r.reserves) && NoBreaks(r.goalies)
    requires CancelRoster(r, user).Removed?
    ensures AllEntriesOk(CancelRoster(r, user).roster.reserves)
    ensures AllEntriesOk(CancelRoster(r, user).roster.goalies)
  {
    var c := CancelRoster(r, user);
    var reserves := Without(r.reserves, user);
    WithoutNoBreaks(r.reserves, user);
    WithoutNoBreaks(r.goalies, user);
    if c.promoted {
      assert NoBreaks(reserves[1..]);
      assert c.roster.reserves == Renumber(reserves[1..]);
      RenumberAllOk(reserves[1..]);
    } else {
      assert c.roster.reserves == Renumber(reserves);
      RenumberAllOk(reserves);
    }
    RenumberAllOk(Without(r.goalies, user));
  }

  /** A cancel keeps the announcement well formed. */
  lemma CancelKeepsWellFormed(r: Roster, user: string)
    requires WellFormed(r)
    requires CancelRoster(r, user).Removed?
    ensures WellFormed(CancelRoster(r, user).roster)
  {
    EntriesHaveNoBreaks(r.players);
    EntriesHaveNoBreaks(r.reserves);
    EntriesHaveNoBreaks(r.goalies);
    CancelPlayersOk(r, user);
    CancelReservesGoaliesOk(r, user);
  }
}
