/** The last steps of creating a training announcement (process_player_limit,
    bot.py:266-307): the player limit typed by the admin and the text the
    announcement starts with. The template body, already formatted with the
    date, is a parameter; template formatting itself is not part of this
    model. */
module RosterCreation {
  import opened Text
  import opened RosterText
  import opened RosterFormat

  const ListTitle: string := "Список красавчиков:"

  /** int(message.text), refused when it raises or is negative (bot.py:268-274). */
  function ParseLimitInput(text: string): (r: Option<nat>)
    ensures r.Some? <==> ParseInt(text).Some? && ParseInt(text).value >= 0
    ensures r.Some? ==> r.value == ParseInt(text).value
  {
    match ParseInt(text)
    case None => None
    case Some(n) => if n < 0 then None else Some(n)
  }

  /** The limit typed as str(n) is accepted as n. */
  lemma LimitInputOfNat(n: nat)
    ensures ParseLimitInput(NatToString(n)) == Some(n)
  {
    ParseIntOfNat(n);
  }

  /** "Лимит игроков: N" */
  function LimitLine(limit: nat): string
  {
    LimitLabel + " " + NatToString(limit)
  }

  /** The text of a new announcement (bot.py:283-287): the body, the limit
      line, the list title and the three headers in the order players,
      goalies, reserve. */
  function CreationText(body: string, limit: nat): string
  {
    body + "\n\n" + LimitLine(limit) + "\n\n" + ListTitle + "\n" + PlayersHeader + "\n" + GoaliesHeader
      + "\n" + ReservesHeader
  }

  /** The lines the creation text adds after the body. */
  function CreationTail(limit: nat): seq<string>
  {
    ["", LimitLine(limit), "", ListTitle, PlayersHeader, GoaliesHeader, ReservesHeader]
  }

  /** A body line that stays outside the sections and does not give the
      limit: no header, no entry line, no limit label. */
  predicate PlainBodyLine(l: string)
  {
    Classify(l) == Plain && !Contains(l, LimitLabel)
  }

  // ---------------------------------------------------------------------------
  // The lines of the creation text

  /** The creation text is the body, a break, and the tail joined by breaks
      (stated over arbitrary lines, so that no constant is unfolded). */
  lemma TextShape(body: string, l: string, t: string, p: string, g: string, rh: string)
    ensures body + "\n\n" + l + "\n\n" + t + "\n" + p + "\n" + g + "\n" + rh
      == body + "\n" + JoinWith(["", l, "", t, p, g, rh], '\n')
  {
    assert "\n\n" == "\n" + "\n";
    ShapeWith(body, l, t, p, g, rh, "\n", '\n');
  }

  lemma ShapeWith(body: string, l: string, t: string, p: string, g: string, rh: string, nl: string, sep: char)
    requires nl == [sep]
    ensures body + (nl + nl) + l + (nl + nl) + t + nl + p + nl + g + nl + rh
      == body + nl + JoinWith(["", l, "", t, p, g, rh], sep)
  {
    JoinLeft(l, t, p, g, rh, sep);
    Flatten(body, l, t, p, g, rh, nl);
  }

  /** The seven lines joined, as one left-to-right concatenation. */
  lemma JoinLeft(l: string, t: string, p: string, g: string, rh: string, sep: char)
    ensures JoinWith(["", l, "", t, p, g, rh], sep)
      == "" + [sep] + l + [sep] + "" + [sep] + t + [sep] + p + [sep] + g + [sep] + rh
  {
    var j1 := JoinSnoc([""], l, sep);
    var j2 := JoinSnoc(["", l], "", sep);
    var j3 := JoinSnoc(["", l, ""], t, sep);
    var j4 := JoinSnoc(["", l, "", t], p, sep);
    var j5 := JoinSnoc(["", l, "", t, p], g, sep);
    var j6 := JoinSnoc(["", l, "", t, p, g], rh, sep);
    assert [""] + [l] == ["", l] && ["", l] + [""] == ["", l, ""];
    assert ["", l, ""] + [t] == ["", l, "", t] && ["", l, "", t] + [p] == ["", l, "", t, p];
    assert ["", l, "", t, p] + [g] == ["", l, "", t, p, g];
    assert ["", l, "", t, p, g] + [rh] == ["", l, "", t, p, g, rh];
  }

  /** The creation text regrouped after the body's break. */
  lemma Flatten(body: string, l: string, t: string, p: string, g: string, rh: string, nl: string)
    ensures body + (nl + nl) + l + (nl + nl) + t + nl + p + nl + g + nl + rh
      == body + nl + ("" + nl + l + nl + "" + nl + t + nl + p + nl + g + nl + rh)
  {
    var a := body + nl;
    var j0 := "";
    var j1 := j0 + nl + l;
    var j2 := j1 + nl + "";
    var j3 := j2 + nl + t;
    var j4 := j3 + nl + p;
    var j5 := j4 + nl + g;
    PushRight(a, j5, nl, rh);
    PushRight(a, j4, nl, g);
    PushRight(a, j3, nl, p);
    PushRight(a, j2, nl, t);
    PushRight(a, j1, nl, "");
    PushRight(a, j0, nl, l);
    assert a + j0 == a;
    var a1 := a + nl + l;
    Assoc(body, nl, nl);
    assert a1 + nl + "" == a1 + nl;
    Assoc(a1, nl, nl);
  }

  /** The lines joined after one more line is appended. */
  lemma JoinSnoc(init: seq<string>, x: string, sep: char) returns (j: string)
    requires init != []
    ensures j == JoinWith(init, sep)
    ensures JoinWith(init + [x], sep) == j + [sep] + x
  {
    JoinWithAppend(init, [x], sep);
    j := JoinWith(init, sep);
  }

  lemma PushRight(a: string, j: string, nl: string, x: string)
    ensures a + (j + nl + x) == a + j + nl + x
  {
  }

  lemma Assoc(a: string, b: string, c: string)
    ensures a + b + c == a + (b + c)
  {
  }

  lemma NoBreakInLimitLine(limit: nat)
    ensures '\n' !in LimitLine(limit)
  {
    var d := NatToString(limit);
    assert '\n' !in LimitLabel + " ";
    assert forall i :: 0 <= i < |d| ==> d[i] != '\n';
  }

  lemma NoBreakInConstants()
    ensures '\n' !in ListTitle && '\n' !in PlayersHeader && '\n' !in GoaliesHeader && '\n' !in ReservesHeader
  {
  }

  /** Joining a + b where b's lines hold no break, then splitting, gives a + b
      back when a is the split of some text. */
  lemma SplitAfterBody(body: string, b: seq<string>)
    requires |b| >= 1 && forall i :: 0 <= i < |b| ==> '\n' !in b[i]
    ensures Split(body + "\n" + JoinWith(b, '\n'), '\n') == Split(body, '\n') + b
  {
    var a := Split(body, '\n');
    JoinSplit(body, '\n');
    JoinWithAppend(a, b, '\n');
    forall i | 0 <= i < |a + b|
      ensures '\n' !in (a + b)[i]
    {
      if i >= |a| {
        assert (a + b)[i] == b[i - |a|];
      }
    }
    SplitJoin(a + b, '\n');
  }

  /** The creation text splits into the body's lines and the tail. */
  lemma CreationLines(body: string, limit: nat)
    ensures Split(CreationText(body, limit), '\n') == Split(body, '\n') + CreationTail(limit)
  {
    var t := CreationTail(limit);
    TextShape(body, LimitLine(limit), ListTitle, PlayersHeader, GoaliesHeader, ReservesHeader);
    NoBreakInLimitLine(limit);
    NoBreakInConstants();
    SplitAfterBody(body, t);
  }

  // ---------------------------------------------------------------------------
  // The tail's lines

  /** A line without the first letter of any header holds no header. */
  lemma NoHeaderLetters(l: string)
    requires 'И' !in l && 'Р' !in l && 'В' !in l
    ensures !Contains(l, PlayersHeader) && !Contains(l, ReservesHeader) && !Contains(l, GoaliesHeader)
  {
    assert PlayersHeader[0] == 'И' && ReservesHeader[0] == 'Р' && GoaliesHeader[0] == 'В';
    if Contains(l, PlayersHeader) {
      ContainsChar(l, PlayersHeader, 0);
    }
    if Contains(l, ReservesHeader) {
      ContainsChar(l, ReservesHeader, 0);
    }
    if Contains(l, GoaliesHeader) {
      ContainsChar(l, GoaliesHeader, 0);
    }
  }

  /** A line starting with neither a space nor a digit, and without the first
      letter of any header, is plain. */
  lemma PlainLine(l: string)
    requires |l| > 0 && !IsSpace(l[0]) && !IsDigit(l[0])
    requires 'И' !in l && 'Р' !in l && 'В' !in l
    ensures Classify(l) == Plain
  {
    NoHeaderLetters(l);
    assert TrimStart(l) == l;
  }

  lemma LimitLinePlain(limit: nat)
    ensures Classify(LimitLine(limit)) == Plain
    ensures Contains(LimitLine(limit), LimitLabel)
  {
    var l := LimitLine(limit);
    var d := NatToString(limit);
    assert l == LimitLabel + (" " + d);
    assert 'И' !in LimitLabel && 'Р' !in LimitLabel && 'В' !in LimitLabel;
    assert forall i :: 0 <= i < |d| ==> d[i] != 'И' && d[i] != 'Р' && d[i] != 'В';
    PlainLine(l);
    assert IsPrefix(LimitLabel, l);
  }

  lemma ListTitleChars()
    ensures |ListTitle| > 0 && ListTitle[0] == 'С'
    ensures 'И' !in ListTitle && 'Р' !in ListTitle && 'В' !in ListTitle && 'Л' !in ListTitle
  {
  }

  lemma ListTitlePlain()
    ensures Classify(ListTitle) == Plain && !Contains(ListTitle, LimitLabel)
  {
    ListTitleChars();
    PlainLine(ListTitle);
    assert LimitLabel[0] == 'Л';
    if Contains(ListTitle, LimitLabel) {
      ContainsChar(ListTitle, LimitLabel, 0);
    }
  }

  lemma EmptyLinePlain()
    ensures Classify("") == Plain && !Contains("", LimitLabel)
  {
  }

  // ---------------------------------------------------------------------------
  // The new announcement

  /** The roster of a new announcement. */
  function Created(body: string, limit: nat): Roster
  {
    Roster(limit, Split(body, '\n') + CreationTail(limit), [], [], [])
  }

  lemma {:induction false} EmitWithoutEntries(r: Roster, other: seq<string>)
    requires r.players == [] && r.reserves == [] && r.goalies == []
    ensures Emit(r, other) == other
  {
    if other != [] {
      var init := other[..|other| - 1];
      EmitWithoutEntries(r, init);
      assert other == init + [other[|other| - 1]];
    }
  }

  /** h is the line at index k, and at no other. */
  lemma OnceAt(lines: seq<string>, h: string, k: nat)
    requires k < |lines| && lines[k] == h
    requires forall i :: 0 <= i < |lines| && i != k ==> lines[i] != h
    ensures Once(lines, h)
  {
  }

  /** Three distinct lines put after lines none of which equals them occur
      once each. */
  lemma OnceAtEnd(pre: seq<string>, p: string, g: string, rh: string)
    requires p != g && p != rh && g != rh
    requires forall l :: l in pre ==> l != p && l != g && l != rh
    ensures var lines := pre + [p, g, rh];
      Once(lines, p) && Once(lines, g) && Once(lines, rh)
  {
    var lines := pre + [p, g, rh];
    var n := |pre|;
    forall i | 0 <= i < |lines|
      ensures i != n ==> lines[i] != p
      ensures i != n + 1 ==> lines[i] != g
      ensures i != n + 2 ==> lines[i] != rh
    {
      if i < n {
        assert lines[i] == pre[i] && pre[i] in pre;
      }
    }
    OnceAt(lines, p, n);
    OnceAt(lines, g, n + 1);
    OnceAt(lines, rh, n + 2);
  }

  /** Four lines that are plain and hold no break. */
  lemma FourPlain(x0: string, x1: string, x2: string, x3: string)
    requires Classify(x0) == Plain && Classify(x1) == Plain && Classify(x2) == Plain && Classify(x3) == Plain
    requires '\n' !in x0 && '\n' !in x1 && '\n' !in x2 && '\n' !in x3
    ensures forall l :: l in [x0, x1, x2, x3] ==> Classify(l) == Plain && '\n' !in l
  {
  }

  /** The tail's lines before the headers are plain and hold no break. */
  lemma TailHeadPlain(limit: nat)
    ensures forall l :: l in ["", LimitLine(limit), "", ListTitle] ==> Classify(l) == Plain && '\n' !in l
  {
    LimitLinePlain(limit);
    ListTitlePlain();
    EmptyLinePlain();
    NoBreakInLimitLine(limit);
    NoBreakInConstants();
    FourPlain("", LimitLine(limit), "", ListTitle);
  }

  /** Every line of pre + [p, g, rh] is one of the three or a plain line of
      pre, and none holds a break. */
  lemma PlainThenThree(pre: seq<string>, p: string, g: string, rh: string)
    requires forall l :: l in pre ==> Classify(l) == Plain && '\n' !in l
    requires '\n' !in p && '\n' !in g && '\n' !in rh
    ensures forall l :: l in pre + [p, g, rh] ==>
      '\n' !in l && (l == p || l == g || l == rh || Classify(l) == Plain)
  {
  }

  /** Plain lines followed by the three headers are the other lines of a
      well-formed announcement. */
  lemma PlainThenHeaders(pre: seq<string>)
    requires forall l :: l in pre ==> Classify(l) == Plain && '\n' !in l
    ensures OtherLinesOk(pre + [PlayersHeader, GoaliesHeader, ReservesHeader])
  {
    HeaderKinds();
    HeadersDistinct();
    NoBreakInConstants();
    OnceAtEnd(pre, PlayersHeader, GoaliesHeader, ReservesHeader);
    PlainThenThree(pre, PlayersHeader, GoaliesHeader, ReservesHeader);
  }

  lemma CreatedOtherLines(body: string, limit: nat)
    requires forall l :: l in Split(body, '\n') ==> PlainBodyLine(l)
    ensures OtherLinesOk(Created(body, limit).other)
  {
    var a := Split(body, '\n');
    var mid := ["", LimitLine(limit), "", ListTitle];
    var pre := a + mid;
    assert Created(body, limit).other == pre + [PlayersHeader, GoaliesHeader, ReservesHeader];
    TailHeadPlain(limit);
    assert forall l :: l in a ==> '\n' !in l;
    PlainThenHeaders(pre);
  }

  lemma CreatedLimit(body: string, limit: nat)
    requires forall l :: l in Split(body, '\n') ==> PlainBodyLine(l)
    ensures LimitOf(Created(body, limit).other) == limit
  {
    var a := Split(body, '\n');
    var t := CreationTail(limit);
    RosterFormat.NoLimitLine(a);
    FirstLimitLineAppend(a, t);
    EmptyLinePlain();
    LimitLinePlain(limit);
    assert t[1..][0] == LimitLine(limit);
    LimitValueOfLimitLine(limit);
  }

  /** A new announcement whose body lines are plain reads back with the typed
      limit, its lines as the other lines and three empty sections, and is
      well formed. */
  lemma CreatedAnnouncement(body: string, limit: nat)
    requires forall l :: l in Split(body, '\n') ==> PlainBodyLine(l)
    ensures Parse(Split(CreationText(body, limit), '\n')) == Created(body, limit)
    ensures WellFormed(Created(body, limit))
  {
    var r := Created(body, limit);
    CreatedOtherLines(body, limit);
    CreatedLimit(body, limit);
    assert WellFormed(r);
    EmitWithoutEntries(r, r.other);
    ParseSerialize(r);
    CreationLines(body, limit);
  }

  /** The first player to join a new announcement becomes player 1, whatever
      the limit: a limit of 0 means no limit. */
  lemma FirstJoinOnCreated(body: string, limit: nat, user: string)
    requires forall l :: l in Split(body, '\n') ==> PlainBodyLine(l)
    ensures JoinRoster(Created(body, limit), user, PlayerRole) ==
      Placed(AsPlayer, Created(body, limit).(players := [PlayerLine(1, user)]))
  {
  }
}
