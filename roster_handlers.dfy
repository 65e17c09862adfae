/** The two button handlers of a training announcement, handle_training_button
    (bot.py:921-1025) and handle_cancel_registration (bot.py:405-518), as
    methods that run the source's loops over the message lines. Each loop
    is proved to compute its specification function from RosterText, and
    each handler its outcome as a function of the message text and the
    user's stored record. Telegram replies, the message edit and the
    attendance update are left out; the user's registration and stored
    display text are parameters. */
module RosterHandlers {
  import opened Text
  import opened RosterText
  import opened RosterFormat
  import opened RosterEdits

  // ---------------------------------------------------------------------------
  // The loops shared by both handlers

  /** The limit loop (bot.py:436-442 and 959-965): the first line holding
      the label gives the limit, parsed leniently, and ends the loop. */
  method ReadLimit(lines: seq<string>) returns (limit: int)
    ensures limit == LimitOf(lines)
  {
    limit := 0;
    var i := 0;
    while i < |lines|
      invariant 0 <= i <= |lines|
      invariant FirstLimitLine(lines[i..]) == FirstLimitLine(lines)
    {
      assert lines[i..][1..] == lines[i + 1..];
      if Contains(lines[i], LimitLabel) {
        limit := LimitValue(lines[i]);
        return;
      }
      i := i + 1;
    }
  }

  /** The sorting loop of the join handler (bot.py:968-986). */
  method SortLines(lines: seq<string>) returns (s: Scan)
    ensures s == ScanFrom(Start, lines)
  {
    s := Start;
    for i := 0 to |lines|
      invariant s == ScanFrom(Start, lines[..i])
    {
      ScanOneMore(lines, i);
      s := SortLine(s, lines[i]);
    }
    assert lines[..|lines|] == lines;
  }

  lemma ScanOneMore(lines: seq<string>, i: nat)
    requires i < |lines|
    ensures ScanFrom(Start, lines[..i + 1]) == Step(ScanFrom(Start, lines[..i]), lines[i])
  {
    assert lines[..i + 1][..i] == lines[..i];
  }

  /** One iteration of the join handler's sorting loop. */
  method SortLine(s: Scan, line: string) returns (s': Scan)
    ensures s' == Step(s, line)
  {
    if Contains(line, PlayersHeader) {
      s' := s.(current := InPlayers, other := s.other + [line]);
    } else if Contains(line, ReservesHeader) {
      s' := s.(current := InReserves, other := s.other + [line]);
    } else if Contains(line, GoaliesHeader) {
      s' := s.(current := InGoalies, other := s.other + [line]);
    } else if IsEntryLine(line) {
      assert Step(s, line) == TakeEntry(s, line);
      match s.current
      case InPlayers => s' := s.(players := s.players + [line]);
      case InReserves => s' := s.(reserves := s.reserves + [line]);
      case InGoalies => s' := s.(goalies := s.goalies + [line]);
      case NoSection => s' := s;
    } else {
      s' := s.(other := s.other + [line]);
    }
  }

  lemma WithoutAppend(lines: seq<string>, line: string, user: string)
    ensures Without(lines + [line], user) ==
      if Contains(line, user) then Without(lines, user) else Without(lines, user) + [line]
    ensures AnyContains(lines + [line], user) <==> AnyContains(lines, user) || Contains(line, user)
  {
    var all := lines + [line];
    assert all[..|lines|] == lines;
    assert all[|lines|] == line;
  }

  /** s is the parse state t with the lines holding the user's text left out
      of the sections, and each flag says whether its section of t holds
      such a line. */
  predicate SortedWithout(s: Scan, inPlayers: bool, inReserves: bool, inGoalies: bool, t: Scan, user: string)
  {
    && s == t.(players := Without(t.players, user), reserves := Without(t.reserves, user),
               goalies := Without(t.goalies, user))
    && (inPlayers <==> AnyContains(t.players, user))
    && (inReserves <==> AnyContains(t.reserves, user))
    && (inGoalies <==> AnyContains(t.goalies, user))
  }

  /** The sorting loop of the cancel handler (bot.py:445-472): as in the join
      handler, except that an entry line holding the user's text is left out
      and only marks the section it was found in. */
  method SortLinesWithout(lines: seq<string>, user: string)
    returns (s: Scan, inPlayers: bool, inReserves: bool, inGoalies: bool)
    ensures SortedWithout(s, inPlayers, inReserves, inGoalies, ScanFrom(Start, lines), user)
  {
    s := Start;
    inPlayers, inReserves, inGoalies := false, false, false;
    for i := 0 to |lines|
      invariant SortedWithout(s, inPlayers, inReserves, inGoalies, ScanFrom(Start, lines[..i]), user)
    {
      assert lines[..i + 1] == lines[..i] + [lines[i]];
      s, inPlayers, inReserves, inGoalies :=
        SortLineWithout(s, inPlayers, inReserves, inGoalies, lines[i], user, ScanFrom(Start, lines[..i]));
    }
    assert lines[..|lines|] == lines;
  }

  /** One iteration of the cancel handler's sorting loop. */
  method SortLineWithout(s: Scan, inPlayers: bool, inReserves: bool, inGoalies: bool, line: string,
                         user: string, ghost t: Scan)
    returns (s': Scan, inPlayers': bool, inReserves': bool, inGoalies': bool)
    requires SortedWithout(s, inPlayers, inReserves, inGoalies, t, user)
    ensures SortedWithout(s', inPlayers', inReserves', inGoalies', Step(t, line), user)
  {
    s', inPlayers', inReserves', inGoalies' := s, inPlayers, inReserves, inGoalies;
    if Contains(line, PlayersHeader) {
      s' := s.(current := InPlayers, other := s.other + [line]);
    } else if Contains(line, ReservesHeader) {
      s' := s.(current := InReserves, other := s.other + [line]);
    } else if Contains(line, GoaliesHeader) {
      s' := s.(current := InGoalies, other := s.other + [line]);
    } else if IsEntryLine(line) {
      assert Step(t, line) == TakeEntry(t, line);
      s', inPlayers', inReserves', inGoalies' := SortEntryWithout(s, inPlayers, inReserves, inGoalies, line, user, t);
    } else {
      s' := s.(other := s.other + [line]);
    }
  }

  /** t with an entry line added to its open section. */
  function TakeEntry(t: Scan, line: string): Scan
  {
    match t.current
    case InPlayers => t.(players := t.players + [line])
    case InReserves => t.(reserves := t.reserves + [line])
    case InGoalies => t.(goalies := t.goalies + [line])
    case NoSection => t
  }

  /** An entry line in the cancel handler: one holding the user's text marks
      its section; any other joins its section. */
  method SortEntryWithout(s: Scan, inPlayers: bool, inReserves: bool, inGoalies: bool, line: string,
                          user: string, ghost t: Scan)
    returns (s': Scan, inPlayers': bool, inReserves': bool, inGoalies': bool)
    requires SortedWithout(s, inPlayers, inReserves, inGoalies, t, user)
    ensures SortedWithout(s', inPlayers', inReserves', inGoalies', TakeEntry(t, line), user)
  {
    WithoutAppend(t.players, line, user);
    WithoutAppend(t.reserves, line, user);
    WithoutAppend(t.goalies, line, user);
    s', inPlayers', inReserves', inGoalies' := s, inPlayers, inReserves, inGoalies;
    if Contains(line, user) {
      match s.current
      case InPlayers => inPlayers' := true;
      case InReserves => inReserves' := true;
      case InGoalies => inGoalies' := true;
      case NoSection =>
    } else {
      match s.current
      case InPlayers => s' := s.(players := s.players + [line]);
      case InReserves => s' := s.(reserves := s.reserves + [line]);
      case InGoalies => s' := s.(goalies := s.goalies + [line]);
      case NoSection =>
    }
  }

  /** The duplicate check any(user in p for p in lines) (bot.py:989-990). */
  method AnyListed(lines: seq<string>, user: string) returns (found: bool)
    ensures found <==> AnyContains(lines, user)
  {
    for i := 0 to |lines|
      invariant forall k :: 0 <= k < i ==> !Contains(lines[k], user)
    {
      if Contains(lines[i], user) {
        return true;
      }
    }
    return false;
  }

  /** One renumbering loop (bot.py:490-503): the i-th line becomes "<i>."
      followed by its text after the first '.'. */
  method RenumberSection(lines: seq<string>) returns (out: seq<string>)
    ensures out == Renumber(lines)
  {
    out := [];
    for i := 0 to |lines|
      invariant |out| == i
      invariant forall k :: 0 <= k < i ==> out[k] == NumberLine(k + 1, lines[k])
    {
      var rest := Rest(lines[i]);
      out := out + [NatToString(i + 1) + "." + rest];
    }
  }

  /** The rebuilding loop (bot.py:506-518 and 1013-1025): every kept line,
      and after a line equal to a header that section's entries. */
  method Rebuild(r: Roster) returns (lines: seq<string>)
    ensures lines == Serialize(r)
  {
    lines := [];
    for i := 0 to |r.other|
      invariant lines == Emit(r, r.other[..i])
    {
      EmitOneMore(r, r.other, i);
      var expanded := ExpandLine(r, r.other[i]);
      lines := lines + expanded;
    }
    assert r.other[..|r.other|] == r.other;
  }

  lemma EmitOneMore(r: Roster, other: seq<string>, i: nat)
    requires i < |other|
    ensures Emit(r, other[..i + 1]) == Emit(r, other[..i]) + Expand(r, other[i])
  {
    assert other[..i + 1][..i] == other[..i];
  }

  /** One iteration of the rebuilding loop: the line, and after a line
      equal to a header that section's entries. */
  method ExpandLine(r: Roster, line: string) returns (out: seq<string>)
    ensures out == Expand(r, line)
  {
    if line == PlayersHeader {
      out := [line] + r.players;
    } else if line == ReservesHeader {
      out := [line] + r.reserves;
    } else if line == GoaliesHeader {
      out := [line] + r.goalies;
    } else {
      out := [line];
    }
  }
  // ---------------------------------------------------------------------------
  // The handlers

  /** A user's stored record (gsheets.get_user_record): None when there is
      no record, else the text under 'message' ("" when absent). */
  type Record = Option<string>

  /** The user's display text, when the record has a non-empty one. */
  function UserText(record: Record): Option<string>
  {
    if record.None? || record.value == "" then None else Some(record.value)
  }

  datatype JoinOutcome = NotRegistered | NoJoinData | AlreadySignedUp | Joined(placement: Placement, text: string)

  /** What the join button does with the announcement text. */
  function JoinMessage(text: string, registered: bool, record: Record, role: Role): JoinOutcome
  {
    if !registered then NotRegistered
    else match UserText(record)
      case None => NoJoinData
      case Some(user) =>
        match JoinRoster(Parse(Split(text, '\n')), user, role)
        case AlreadyListed => AlreadySignedUp
        case Placed(p, r) => Joined(p, MessageText(r))
  }

  /** handle_training_button (bot.py:921-1025). */
  method HandleJoin(text: string, registered: bool, record: Record, role: Role)
    returns (outcome: JoinOutcome)
    ensures outcome == JoinMessage(text, registered, record, role)
  {
    if !registered {
      return NotRegistered;
    }
    if record.None? || record.value == "" {
      return NoJoinData;
    }
    var user := record.value;
    var lines := Split(text, '\n');
    var limit := ReadLimit(lines);
    var s := SortLines(lines);
    var r := Roster(limit, s.other, s.players, s.reserves, s.goalies);
    assert r == Parse(lines);
    var listed := AnyListed(s.players + s.reserves + s.goalies, user);
    if listed {
      assert JoinRoster(r, user, role) == AlreadyListed;
      return AlreadySignedUp;
    }
    var placement, r' := Place(r, user, role);
    var newLines := Rebuild(r');
    return Joined(placement, JoinWith(newLines, '\n'));
  }

  /** The placement of a user not yet listed (bot.py:993-1010): a goalie
      after the goalies, a player after the players or, at capacity, after
      the reserves. */
  method Place(r: Roster, user: string, role: Role) returns (placement: Placement, r': Roster)
    requires !AnyContains(Entries(r), user)
    ensures JoinRoster(r, user, role) == Placed(placement, r')
  {
    if role == PlayerRole {
      if r.limit > 0 && |r.players| >= r.limit {
        r' := r.(reserves := r.reserves + [ReserveLine(|r.reserves| + 1, user)]);
        placement := AsReserve;
      } else {
        r' := r.(players := r.players + [PlayerLine(|r.players| + 1, user)]);
        placement := AsPlayer;
      }
    } else {
      r' := r.(goalies := r.goalies + [PlayerLine(|r.goalies| + 1, user)]);
      placement := AsGoalie;
    }
  }

  datatype CancelOutcome = NoCancelData | NotSignedUp | Cancelled(promoted: bool, text: string)

  /** What the cancel button does with the announcement text. */
  function CancelMessage(text: string, record: Record): CancelOutcome
  {
    match UserText(record)
    case None => NoCancelData
    case Some(user) =>
      match CancelRoster(Parse(Split(text, '\n')), user)
      case NotListed => NotSignedUp
      case Removed(promoted, r) => Cancelled(promoted, MessageText(r))
  }

  /** handle_cancel_registration (bot.py:405-518). The limit is read, as in
      the source, and not used. */
  method HandleCancel(text: string, record: Record) returns (outcome: CancelOutcome)
    ensures outcome == CancelMessage(text, record)
  {
    if record.None? || record.value == "" {
      return NoCancelData;
    }
    var user := record.value;
    var lines := Split(text, '\n');
    var limit := ReadLimit(lines);
    var s, inPlayers, inReserves, inGoalies := SortLinesWithout(lines, user);
    CancelOfSorted(lines, user, s, inPlayers, inReserves, inGoalies);
    if !(inPlayers || inReserves || inGoalies) {
      return NotSignedUp;
    }
    var promoted, players', reserves', goalies' := PromoteAndRenumber(s.players, s.reserves, s.goalies, inPlayers);
    var newLines := Rebuild(Roster(limit, s.other, players', reserves', goalies'));
    return Cancelled(promoted, JoinWith(newLines, '\n'));
  }

  /** The promotion (bot.py:483-487) and the three renumbering loops
      (bot.py:490-503) of the cancel handler. */
  method PromoteAndRenumber(players: seq<string>, reserves: seq<string>, goalies: seq<string>, inPlayers: bool)
    returns (promoted: bool, players': seq<string>, reserves': seq<string>, goalies': seq<string>)
    ensures promoted <==> inPlayers && |reserves| > 0
    ensures players' == Renumber(if promoted then players + [PromotedLine(|players| + 1, reserves[0])] else players)
    ensures reserves' == Renumber(if promoted then reserves[1..] else reserves)
    ensures goalies' == Renumber(goalies)
  {
    var ps, rs := players, reserves;
    promoted := false;
    if inPlayers && |rs| > 0 {
      var first := rs[0];
      rs := rs[1..];
      ps := ps + [PromotedLine(|ps| + 1, first)];
      promoted := true;
    }
    players' := RenumberSection(ps);
    reserves' := RenumberSection(rs);
    goalies' := RenumberSection(goalies);
  }

  /** The cancel edit of the parsed message, in terms of what the cancel
      handler's sorting loop returns. */
  lemma CancelOfSorted(lines: seq<string>, user: string, s: Scan, inPlayers: bool, inReserves: bool, inGoalies: bool)
    requires SortedWithout(s, inPlayers, inReserves, inGoalies, ScanFrom(Start, lines), user)
    ensures !(inPlayers || inReserves || inGoalies) ==> CancelRoster(Parse(lines), user) == NotListed
    ensures inPlayers || inReserves || inGoalies ==>
      var promote := inPlayers && |s.reserves| > 0;
      var players := if promote then s.players + [PromotedLine(|s.players| + 1, s.reserves[0])] else s.players;
      var reserves := if promote then s.reserves[1..] else s.reserves;
      CancelRoster(Parse(lines), user) ==
        Removed(promote, Roster(LimitOf(lines), s.other, Renumber(players), Renumber(reserves), Renumber(s.goalies)))
  {
  }

  // ---------------------------------------------------------------------------
  // The handlers on well-formed announcements

  /** A display text the round trip keeps: non-empty, without ':' and
      without line breaks. */
  predicate PlainUser(user: string)
  {
    user != "" && ':' !in user && '\n' !in user
  }

  /** On a well-formed announcement the join button edits the roster exactly
      as JoinRoster does, and the edited announcement is well formed. */
  lemma JoinOnWellFormed(r: Roster, user: string, role: Role)
    requires WellFormed(r) && PlainUser(user)
    ensures JoinMessage(MessageText(r), true, Some(user), role) ==
      match JoinRoster(r, user, role)
      case AlreadyListed => AlreadySignedUp
      case Placed(p, r') => Joined(p, MessageText(r'))
    ensures JoinRoster(r, user, role).Placed? ==> WellFormed(JoinRoster(r, user, role).roster)
  {
    ParseMessageText(r);
    if JoinRoster(r, user, role).Placed? {
      JoinKeepsWellFormed(r, user, role);
    }
  }

  /** Pressing a join button twice: the second press, on the edited
      announcement, is refused. */
  lemma JoinTwiceOnMessage(r: Roster, user: string, role: Role, again: Role)
    requires WellFormed(r) && PlainUser(user)
    requires JoinMessage(MessageText(r), true, Some(user), role).Joined?
    ensures JoinMessage(JoinMessage(MessageText(r), true, Some(user), role).text, true, Some(user), again)
      == AlreadySignedUp
  {
    JoinOnWellFormed(r, user, role);
    var r' := JoinRoster(r, user, role).roster;
    JoinOnWellFormed(r', user, again);
    JoinTwiceRefused(r, user, role, again);
  }

  /** On a well-formed announcement the cancel button reports "not signed
      up" exactly when no entry line holds the user's text, and otherwise
      edits the roster as CancelRoster does, keeping it well formed. */
  lemma CancelOnWellFormed(r: Roster, user: string)
    requires WellFormed(r) && user != ""
    ensures CancelMessage(MessageText(r), Some(user)) == NotSignedUp <==> !AnyContains(Entries(r), user)
    ensures CancelMessage(MessageText(r), Some(user)).Cancelled? ==>
      && CancelRoster(r, user).Removed?
      && CancelMessage(MessageText(r), Some(user)) ==
           Cancelled(CancelRoster(r, user).promoted, MessageText(CancelRoster(r, user).roster))
      && WellFormed(CancelRoster(r, user).roster)
  {
    ParseMessageText(r);
    CancelNotListedIff(r, user);
    if CancelRoster(r, user).Removed? {
      CancelKeepsWellFormed(r, user);
    }
  }

  /** Joining and then cancelling on the announcement gives back its sections
      renumbered, unless a player joined while a reserve was waiting. */
  lemma JoinThenCancelOnMessage(r: Roster, user: string, role: Role)
    requires WellFormed(r) && PlainUser(user)
    requires !AnyContains(Entries(r), user)
    requires var j := JoinRoster(r, user, role); j.Placed? && (j.placement == AsPlayer ==> r.reserves == [])
    ensures JoinMessage(MessageText(r), true, Some(user), role).Joined?
    ensures CancelMessage(JoinMessage(MessageText(r), true, Some(user), role).text, Some(user)) ==
      Cancelled(false, MessageText(r.(players := Renumber(r.players), reserves := Renumber(r.reserves),
                                       goalies := Renumber(r.goalies))))
  {
    JoinOnWellFormed(r, user, role);
    var r' := JoinRoster(r, user, role).roster;
    ParseMessageText(r');
    JoinThenCancel(r, user, role);
  }
}
