/** The training message directory: training_messages_store, a dictionary
    from a date key "DD.MM.YYYY" to the announcements posted for that date.
    store_training_message files a message under the first date in its text
    (bot.py:550-568), cleanup_messages_store drops the dates already past
    (bot.py:1139-1155) and process_cancel_date deletes the messages of one
    date, best effort, and counts the deletions (bot.py:640-681). */
module MessageDirectory {
  import opened Text
  import opened Dates
  import RosterText
  import RosterCreation

  /** The record kept per message: chat, message id and text. */
  datatype StoredMessage = StoredMessage(chat: int, id: int, text: string)

  type Store = map<string, seq<StoredMessage>>

  /** training_messages_store.get(key, []) */
  function Bucket(s: Store, key: string): seq<StoredMessage>
  {
    if key in s then s[key] else []
  }

  // ---------------------------------------------------------------------------
  // Filing a message

  /** The store after store_training_message: unchanged when the text holds
      no date, otherwise the message appended to the bucket of its first
      date, which is created when missing. */
  function Filed(s: Store, m: StoredMessage): Store
  {
    match FindDateKey(m.text)
    case None => s
    case Some(k) => s[k := Bucket(s, k) + [m]]
  }

  /** Every bucket is non-empty and holds only messages whose first date is
      its key. */
  predicate FiledByDate(s: Store)
  {
    forall k :: k in s ==> s[k] != [] && forall m :: m in s[k] ==> FindDateKey(m.text) == Some(k)
  }

  /** A message is filed exactly when its text holds a date, under its first
      date, after the messages already there; no other bucket changes. */
  lemma FiledPlacement(s: Store, m: StoredMessage)
    ensures FindDateKey(m.text).None? ==> Filed(s, m) == s
    ensures FindDateKey(m.text).Some? ==>
      var k := FindDateKey(m.text).value;
      && Bucket(Filed(s, m), k) == Bucket(s, k) + [m]
      && Filed(s, m).Keys == s.Keys + {k}
      && forall j :: j != k ==> Bucket(Filed(s, m), j) == Bucket(s, j)
  {
  }

  /** Filing keeps every message under its first date. */
  lemma FiledKeepsByDate(s: Store, m: StoredMessage)
    requires FiledByDate(s)
    ensures FiledByDate(Filed(s, m))
  {
    match FindDateKey(m.text)
    case None =>
    case Some(k) =>
      var t := Filed(s, m);
      forall j | j in t
        ensures t[j] != [] && forall n: StoredMessage :: n in t[j] ==> FindDateKey(n.text) == Some(j)
      {
        if j == k {
          assert t[j] == Bucket(s, k) + [m];
        }
      }
  }

  /** Every key of a store so filed has the shape DD.MM.YYYY. */
  lemma FiledKeysShaped(s: Store, k: string)
    requires FiledByDate(s) && k in s
    ensures KeyShaped(k)
  {
    assert s[k][0] in s[k];
  }

  // ---------------------------------------------------------------------------
  // Pruning the dates already past

  /** The key parses as a date and that date is before today. */
  predicate Expired(key: string, today: Date)
  {
    Strptime(key).Some? && Before(Strptime(key).value, today)
  }

  /** The store after cleanup_messages_store. */
  function Pruned(s: Store, today: Date): Store
  {
    map k | k in s && !Expired(k, today) :: s[k]
  }

  /** Pruning keeps the buckets it keeps whole, keeps every key that does
      not parse as a date and every date from today on, and leaves no date
      before today. */
  lemma PrunedKeeps(s: Store, today: Date)
    ensures forall k :: k in Pruned(s, today) ==> k in s && Pruned(s, today)[k] == s[k]
    ensures forall k :: k in s && Strptime(k).None? ==> k in Pruned(s, today)
    ensures forall k :: k in s && Strptime(k).Some? && !Before(Strptime(k).value, today) ==> k in Pruned(s, today)
    ensures forall k :: k in Pruned(s, today) ==> !Expired(k, today)
  {
  }

  /** Pruning twice for the same day is pruning once. */
  lemma PrunedIdempotent(s: Store, today: Date)
    ensures Pruned(Pruned(s, today), today) == Pruned(s, today)
  {
  }

  /** Pruning on one day and then on a later one is pruning on the later
      one. */
  lemma PrunedLater(s: Store, d1: Date, d2: Date)
    requires !Before(d2, d1)
    ensures Pruned(Pruned(s, d1), d2) == Pruned(s, d2)
  {
    forall k | k in s && Expired(k, d1)
      ensures Expired(k, d2)
    {
      BeforeOrder(Strptime(k).value, d1, d2);
    }
  }

  /** Pruning keeps every message under its first date. */
  lemma PrunedKeepsByDate(s: Store, today: Date)
    requires FiledByDate(s)
    ensures FiledByDate(Pruned(s, today))
  {
  }

  /** A message for today or a later date, once filed, survives the
      cleanup. */
  lemma FiledThenPruned(s: Store, m: StoredMessage, today: Date, d: Date)
    requires ValidDate(d) && FindDateKey(m.text) == Some(FormatDate(d)) && !Before(d, today)
    ensures m in Bucket(Pruned(Filed(s, m), today), FormatDate(d))
  {
    StrptimeFormat(d);
    var k := FormatDate(d);
    assert Bucket(Filed(s, m), k) == Bucket(s, k) + [m];
  }

  // ---------------------------------------------------------------------------
  // Deleting the messages of one date

  /** A message as bot.delete_message addresses it. */
  datatype MessageRef = MessageRef(chat: int, id: int)

  function RefOf(m: StoredMessage): MessageRef
  {
    MessageRef(m.chat, m.id)
  }

  /** The deletions that succeed when the messages are deleted in order and
      exactly the messages in deletable can be deleted, each once. */
  function Deletions(ms: seq<StoredMessage>, deletable: set<MessageRef>): nat
  {
    if ms == [] then 0
    else if RefOf(ms[0]) in deletable then 1 + Deletions(ms[1..], deletable - {RefOf(ms[0])})
    else Deletions(ms[1..], deletable)
  }

  /** The count never exceeds the number of stored messages. */
  lemma {:induction false} DeletionsBound(ms: seq<StoredMessage>, deletable: set<MessageRef>)
    ensures Deletions(ms, deletable) <= |ms|
  {
    if ms != [] {
      DeletionsBound(ms[1..], deletable - {RefOf(ms[0])});
      DeletionsBound(ms[1..], deletable);
    }
  }

  /** Nothing is counted when nothing can be deleted. */
  lemma {:induction false} DeletionsNone(ms: seq<StoredMessage>)
    ensures Deletions(ms, {}) == 0
  {
    if ms != [] {
      DeletionsNone(ms[1..]);
    }
  }

  /** Distinct messages that can all be deleted are all counted. */
  lemma {:induction false} DeletionsAll(ms: seq<StoredMessage>, deletable: set<MessageRef>)
    requires forall i, j :: 0 <= i < j < |ms| ==> RefOf(ms[i]) != RefOf(ms[j])
    requires forall i :: 0 <= i < |ms| ==> RefOf(ms[i]) in deletable
    ensures Deletions(ms, deletable) == |ms|
  {
    if ms != [] {
      var left := deletable - {RefOf(ms[0])};
      forall i | 0 <= i < |ms[1..]|
        ensures RefOf(ms[1..][i]) in left
      {
        assert RefOf(ms[1..][i]) == RefOf(ms[i + 1]) != RefOf(ms[0]);
      }
      DeletionsAll(ms[1..], left);
    }
  }

  /** The reply of process_cancel_date once the date is accepted:
      the messages deleted and stored, and whether the sheet update
      succeeded. */
  datatype CancelDateOutcome =
    | NotAdmin
    | BadDate
    | NotFuture
    | Cancelled(deleted: nat, total: nat, sheetOk: bool)

  /** The reply mentions the count only when some deletion failed and the
      sheet update succeeded (bot.py:667-671). */
  predicate ReportsPartial(o: CancelDateOutcome)
  {
    o.Cancelled? && o.sheetOk && o.deleted < o.total
  }

  /** The key the messages of a cancelled date are looked up under, as
      bot.py:656 writes it: the text the admin typed, stripped. */
  function LookupKeyAsWritten(typed: string, d: Date): string
  {
    Trim(typed)
  }

  /** The key as intended: the date formatted as the store's keys are. */
  function LookupKey(d: Date): (k: string)
    requires ValidDate(d)
    ensures KeyShaped(k) && Strptime(k) == Some(d)
  {
    StrptimeFormat(d);
    var k := FormatDate(d);
    assert k[2] == '.' && k[5] == '.';
    k
  }

  /** The date "1.2.2026", which strptime accepts, is looked up under a key
      no message is ever filed under, while its messages are filed under
      "01.02.2026": its announcements stay posted. */
  lemma LookupMissedAsWritten(s: Store)
    requires FiledByDate(s)
    ensures Strptime("1.2.2026") == Some(Date(2026, 2, 1))
    ensures Bucket(s, LookupKeyAsWritten("1.2.2026", Date(2026, 2, 1))) == []
    ensures Bucket(s, LookupKey(Date(2026, 2, 1))) == Bucket(s, "01.02.2026")
  {
    ShortFormAccepted();
    assert LookupKey(Date(2026, 2, 1)) == "01.02.2026";
    assert IsDigit("1.2.2026"[0]) && IsDigit("1.2.2026"[7]);
    TrimDigitEnds("1.2.2026");
    UnshapedKeyEmpty(s, "1.2.2026");
  }

  lemma TrimDigitEnds(k: string)
    requires k != [] && IsDigit(k[0]) && IsDigit(k[|k| - 1])
    ensures Trim(k) == k
  {
    TrimNoSpace(k);
  }

  /** No message is filed under a text that is not of the key's shape. */
  lemma UnshapedKeyEmpty(s: Store, k: string)
    requires FiledByDate(s) && |k| != 10
    ensures Bucket(s, k) == []
  {
    if k in s {
      FiledKeysShaped(s, k);
    }
  }

  /** The intended key finds the bucket of every key naming that date. */
  lemma LookupKeyFinds(s: Store, d: Date, k: string)
    requires FiledByDate(s) && k in s && Strptime(k) == Some(d)
    ensures Bucket(s, LookupKey(d)) == s[k]
  {
    FiledKeysShaped(s, k);
    FormatStrptime(k);
  }

  // ---------------------------------------------------------------------------
  // is_training_message (bot.py:613-623)

  /** The text holds "тренировка" in any case, the date as strftime writes
      it, and one of the words "список", "игроки", "вратари" in any case; a
      missing or empty text is not a training message. */
  predicate IsTrainingMessage(text: Option<string>, d: Date)
    requires ValidDate(d)
  {
    && text.Some? && text.value != ""
    && Contains(Lower(text.value), "тренировка")
    && Contains(text.value, FormatDate(d))
    && (Contains(Lower(text.value), "список") || Contains(Lower(text.value), "игроки")
        || Contains(Lower(text.value), "вратари"))
  }

  lemma LowerAppend(a: string, b: string)
    ensures Lower(a + b) == Lower(a) + Lower(b)
  {
    assert forall i :: 0 <= i < |a + b| ==> Lower(a + b)[i] == (Lower(a) + Lower(b))[i];
  }

  /** Where p occurs in s, every prefix w of p's lower-casing occurs in s's
      lower-casing. */
  lemma ContainsLowered(s: string, p: string, w: string)
    requires Contains(s, p) && IsPrefix(w, Lower(p))
    ensures Contains(Lower(s), w)
  {
    var i := ContainsIndex(s, p);
    assert forall j :: 0 <= j < |w| ==> Lower(s)[i + j] == ToLower(s[i + j]) == ToLower(p[j]) == w[j];
    assert Lower(s)[i..i + |w|] == w;
    ContainsSlice(Lower(s), i, w);
  }

  lemma PlayersHeaderLowered()
    ensures IsPrefix("игроки", Lower(RosterText.PlayersHeader))
  {
    var h := RosterText.PlayersHeader;
    assert h == "Игроки:";
    assert ToLower('И') == 'и';
  }

  lemma LoweredPrefixKept(body: string, rest: string, w: string)
    requires Contains(Lower(body), w)
    ensures Contains(Lower(body + rest), w)
  {
    LowerAppend(body, rest);
    ContainsAppendRight(Lower(body), Lower(rest), w);
  }

  lemma HeaderLowered(front: string, h: string, post: string)
    requires IsPrefix("игроки", Lower(h))
    ensures Contains(Lower(front + (h + post)), "игроки")
  {
    assert IsPrefix(h, h + post);
    ContainsSlice(h + post, 0, h);
    ContainsAppendLeft(front, h + post, h);
    ContainsLowered(front + (h + post), h, "игроки");
  }

  lemma Regroup(a: string, b: string, c: string, d: string)
    ensures a + (b + c + d) == (a + b) + (c + d)
  {
  }

  lemma RegroupAtHeader(body: string, a1: string, a2: string, a3: string, a4: string, a5: string,
                        h: string, c1: string, c2: string, c3: string, c4: string)
    ensures body + a1 + a2 + a3 + a4 + a5 + h + c1 + c2 + c3 + c4
         == body + ((a1 + a2 + a3 + a4 + a5) + h + (c1 + c2 + c3 + c4))
  {
  }

  /** A text made of a body naming the training and its date, followed by
      a line holding the players' header, is a training message. */
  lemma BodyThenHeader(body: string, pre: string, h: string, post: string, d: Date)
    requires ValidDate(d)
    requires Contains(Lower(body), "тренировка") && Contains(body, FormatDate(d))
    requires IsPrefix("игроки", Lower(h))
    ensures IsTrainingMessage(Some(body + (pre + h + post)), d)
  {
    var rest := pre + h + post;
    LoweredPrefixKept(body, rest, "тренировка");
    ContainsAppendRight(body, rest, FormatDate(d));
    Regroup(body, pre, h, post);
    HeaderLowered(body + pre, h, post);
  }

  /** An announcement as created, from a body that names the training and
      its date, is a training message for that date. */
  lemma CreatedIsTrainingMessage(body: string, limit: nat, d: Date)
    requires ValidDate(d)
    requires Contains(Lower(body), "тренировка") && Contains(body, FormatDate(d))
    ensures IsTrainingMessage(Some(RosterCreation.CreationText(body, limit)), d)
  {
    var pre := "\n\n" + RosterCreation.LimitLine(limit) + "\n\n" + RosterCreation.ListTitle + "\n";
    var post := "\n" + RosterText.GoaliesHeader + "\n" + RosterText.ReservesHeader;
    RegroupAtHeader(body, "\n\n", RosterCreation.LimitLine(limit), "\n\n", RosterCreation.ListTitle, "\n",
                    RosterText.PlayersHeader, "\n", RosterText.GoaliesHeader, "\n", RosterText.ReservesHeader);
    PlayersHeaderLowered();
    BodyThenHeader(body, pre, RosterText.PlayersHeader, post, d);
  }

  // ---------------------------------------------------------------------------
  // The directory

  class TrainingDirectory {
    var store: Store

    constructor()
      ensures store == map[]
    {
      store := map[];
    }

    /** store_training_message */
    method StoreMessage(chat: int, id: int, text: string)
      modifies this
      ensures store == Filed(old(store), StoredMessage(chat, id, text))
    {
      var key := FindDateKey(text);
      if key.None? {
        return;
      }
      var k := key.value;
      if k !in store {
        store := store[k := []];
      }
      store := store[k := store[k] + [StoredMessage(chat, id, text)]];
    }

    /** cleanup_messages_store: collect the keys whose date is past, then
        delete them; keys that do not parse are skipped. */
    method Cleanup(today: Date)
      modifies this
      ensures store == Pruned(old(store), today)
    {
      var oldDates: set<string> := {};
      var unseen := store.Keys;
      while unseen != {}
        invariant unseen <= store.Keys
        invariant oldDates == set k | k in store.Keys - unseen && Expired(k, today)
        decreases unseen
      {
        var k :| k in unseen;
        var parsed := Strptime(k);
        if parsed.Some? && Before(parsed.value, today) {
          oldDates := oldDates + {k};
        }
        unseen := unseen - {k};
      }
      ghost var start := store;
      var doomed := oldDates;
      while doomed != {}
        invariant doomed <= oldDates
        invariant store == map k | k in start && k !in oldDates - doomed :: start[k]
        decreases doomed
      {
        var k :| k in doomed;
        store := map j | j in store && j != k :: store[j];
        doomed := doomed - {k};
      }
    }

    /** The deletion loop of process_cancel_date: every message of the
        bucket is deleted in order, and the successes are counted. The store
        itself is left as it is. */
    method DeleteMessages(key: string, deletable: set<MessageRef>) returns (deleted: nat, total: nat)
      ensures total == |Bucket(store, key)|
      ensures deleted == Deletions(Bucket(store, key), deletable)
      ensures deleted <= total
    {
      var ms := Bucket(store, key);
      var left := deletable;
      deleted := 0;
      var i := 0;
      while i < |ms|
        invariant 0 <= i <= |ms|
        invariant deleted + Deletions(ms[i..], left) == Deletions(ms, deletable)
      {
        assert ms[i..][1..] == ms[i + 1..];
        var r := RefOf(ms[i]);
        if r in left {
          left := left - {r};
          deleted := deleted + 1;
        }
        i := i + 1;
      }
      total := |ms|;
      DeletionsBound(ms, deletable);
    }

    /** process_cancel_date: only admins; the stripped text must be a date
        strictly after today; the messages filed for that date are deleted,
        then the sheet is updated. The messages are looked up under the
        corrected key LookupKey(d); the source looks them up under the typed
        text (LookupKeyAsWritten), which LookupMissedAsWritten shows can miss. The outcome of the sheet update and of
        each deletion are parameters. */
    method ProcessCancelDate(isAdmin: bool, typed: string, today: Date, deletable: set<MessageRef>,
                             sheetOk: bool) returns (o: CancelDateOutcome)
      ensures !isAdmin ==> o == NotAdmin
      ensures isAdmin && Strptime(Trim(typed)).None? ==> o == BadDate
      ensures isAdmin && Strptime(Trim(typed)).Some? ==>
        var d := Strptime(Trim(typed)).value;
        var ms := Bucket(store, LookupKey(d));
        o == if !Before(today, d) then NotFuture else Cancelled(Deletions(ms, deletable), |ms|, sheetOk)
      ensures o.Cancelled? ==> o.deleted <= o.total
    {
      if !isAdmin {
        return NotAdmin;
      }
      var parsed := Strptime(Trim(typed));
      if parsed.None? {
        return BadDate;
      }
      var d := parsed.value;
      if !Before(today, d) {
        return NotFuture;
      }
      var deleted, total := DeleteMessages(LookupKey(d), deletable);
      return Cancelled(deleted, total, sheetOk);
    }
  }

  /** Cancelling a future date finds every message filed for it; when all of
      them can be deleted and no two are the same message, the reply has no
      partial-deletion note. */
  lemma CancelDateDeletesAll(s: Store, d: Date, deletable: set<MessageRef>)
    requires FiledByDate(s) && ValidDate(d)
    requires forall m :: m in Bucket(s, LookupKey(d)) ==> RefOf(m) in deletable
    requires var ms := Bucket(s, LookupKey(d)); forall i, j :: 0 <= i < j < |ms| ==> RefOf(ms[i]) != RefOf(ms[j])
    ensures var ms := Bucket(s, LookupKey(d)); !ReportsPartial(Cancelled(Deletions(ms, deletable), |ms|, true))
  {
    var ms := Bucket(s, LookupKey(d));
    assert forall i :: 0 <= i < |ms| ==> ms[i] in ms;
    DeletionsAll(ms, deletable);
  }
}
