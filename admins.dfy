/** Administrators: is_admin (bot.py:26-28), the ID-list edits of
    update_admin_ids and remove_admin_from_config (bot.py:692-740 and
    796-844) and the checks of /addadmin and /removeadmin (bot.py:743-776
    and 847-881). The config file is modelled by the list of IDs it holds;
    the text of that list is read and written by ParseIdList and
    FormatIdList, which are inverse. */
module Admins {
  import opened Text

  /** user_id in ADMIN_IDS or user_id in CONFIG_ADMINS */
  predicate IsAdmin(user: int, adminIds: seq<int>, configAdmins: seq<int>)
  {
    user in adminIds || user in configAdmins
  }

  /** The list without any occurrence of id, in order. */
  function Without(ids: seq<int>, id: int): (r: seq<int>)
    ensures |r| <= |ids|
    ensures forall x :: x in r <==> x in ids && x != id
  {
    if ids == [] then []
    else if ids[0] == id then Without(ids[1..], id)
    else [ids[0]] + Without(ids[1..], id)
  }

  lemma {:induction false} WithoutAppend(ids: seq<int>, x: int, id: int)
    ensures Without(ids + [x], id) == Without(ids, id) + (if x == id then [] else [x])
  {
    if ids != [] {
      assert (ids + [x])[1..] == ids[1..] + [x];
      WithoutAppend(ids[1..], x, id);
    } else {
      assert ([] + [x])[1..] == [];
    }
  }

  /** Filtering out id keeps the length exactly when id is absent: the test
      remove_admin_from_config uses to report "not found". */
  lemma {:induction false} WithoutSameLength(ids: seq<int>, id: int)
    ensures |Without(ids, id)| == |ids| <==> id !in ids
  {
    if ids != [] {
      WithoutSameLength(ids[1..], id);
      assert id in ids <==> ids[0] == id || id in ids[1..];
    }
  }

  predicate NoDuplicates(ids: seq<int>)
  {
    forall i, j :: 0 <= i < j < |ids| ==> ids[i] != ids[j]
  }

  /** Filtering keeps a list free of duplicates. */
  lemma {:induction false} WithoutNoDuplicates(ids: seq<int>, id: int)
    requires NoDuplicates(ids)
    ensures NoDuplicates(Without(ids, id))
  {
    if ids != [] {
      WithoutNoDuplicates(ids[1..], id);
      if ids[0] != id {
        var r := [ids[0]] + Without(ids[1..], id);
        forall i, j | 0 <= i < j < |r|
          ensures r[i] != r[j]
        {
          if i == 0 {
            assert r[j] in Without(ids[1..], id);
            assert ids[0] !in ids[1..];
          }
        }
      }
    }
  }

  // ---------------------------------------------------------------------------
  // The ID list as written in the config file: "1, 2, 3"

  /** str(i) for any integer. */
  function IntToString(i: int): (s: string)
    ensures |s| >= 1 && !IsSpace(s[0]) && !IsSpace(s[|s| - 1]) && ',' !in s
  {
    var d := NatToString(if i < 0 then -i else i);
    assert IsDigit(d[0]) && IsDigit(d[|d| - 1]);
    assert forall k :: 0 <= k < |d| ==> IsDigit(d[k]);
    if i < 0 then "-" + d else d
  }

  /** int(str(i)) == i */
  lemma ParseIntOfInt(i: int)
    ensures ParseInt(IntToString(i)) == Some(i)
  {
    if i < 0 {
      ParseIntOfNegative(i);
    } else {
      ParseIntOfNat(i);
    }
  }

  lemma ParseIntOfNegative(i: int)
    requires i < 0
    ensures ParseInt(IntToString(i)) == Some(i)
  {
    var s, d := IntToString(i), NatToString(-i);
    assert s == "-" + d;
    TrimNoSpace(s);
    ParseDigitsOfNat(-i);
    ParseNegative(s, d, -i);
  }

  /** A minus sign followed by the digits of v reads as -v. */
  lemma ParseNegative(s: string, d: string, v: nat)
    requires s == "-" + d && Trim(s) == s && ParseDigits(d) == Some(v)
    ensures ParseInt(s) == Some(-(v as int))
  {
    assert s[0] == '-' && s[1..] == d;
  }

  /** The pieces of ', '.join(str(i) for i in ids) between its commas: the
      first number, then each further number after a space. */
  function Pieces(ids: seq<int>): (ps: seq<string>)
    ensures |ps| == |ids|
  {
    seq(|ids|, k requires 0 <= k < |ids| => (if k == 0 then "" else " ") + IntToString(ids[k]))
  }

  /** ', '.join(str(i) for i in ids) */
  function FormatIdList(ids: seq<int>): string
  {
    if ids == [] then "" else JoinWith(Pieces(ids), ',')
  }

  /** [int(p.strip()) for p in parts if p.strip()]; None where int()
      raises. */
  function ParsePieces(parts: seq<string>): Option<seq<int>>
  {
    if parts == [] then Some([])
    else
      var p := Trim(parts[0]);
      match ParsePieces(parts[1..])
      case None => None
      case Some(rest) =>
        if p == [] then Some(rest)
        else match ParseInt(p)
          case None => None
          case Some(v) => Some([v] + rest)
  }

  /** The IDs of the list text between the brackets. */
  function ParseIdList(text: string): Option<seq<int>>
  {
    ParsePieces(Split(text, ','))
  }

  lemma {:induction false} ParsePiecesOf(parts: seq<string>, ids: seq<int>)
    requires |parts| == |ids|
    requires forall k :: 0 <= k < |parts| ==> Trim(parts[k]) == IntToString(ids[k])
    ensures ParsePieces(parts) == Some(ids)
  {
    if parts != [] {
      forall k | 0 <= k < |parts| - 1
        ensures Trim(parts[1..][k]) == IntToString(ids[1..][k])
      {
        assert parts[1..][k] == parts[k + 1] && ids[1..][k] == ids[k + 1];
      }
      ParsePiecesOf(parts[1..], ids[1..]);
      ParseIntOfInt(ids[0]);
      ParsePiecesCons(parts, ids[0], ids[1..]);
      assert [ids[0]] + ids[1..] == ids;
    }
  }

  lemma ParsePiecesCons(parts: seq<string>, v: int, rest: seq<int>)
    requires parts != [] && Trim(parts[0]) == IntToString(v)
    requires ParseInt(IntToString(v)) == Some(v) && ParsePieces(parts[1..]) == Some(rest)
    ensures ParsePieces(parts) == Some([v] + rest)
  {
  }

  /** The list written to the config file reads back as the same list. */
  lemma IdListRoundTrip(ids: seq<int>)
    ensures ParseIdList(FormatIdList(ids)) == Some(ids)
  {
    if ids == [] {
      assert Split("", ',') == [""];
      TrimNoSpace("");
    } else {
      var ps := Pieces(ids);
      forall k | 0 <= k < |ps|
        ensures ',' !in ps[k] && Trim(ps[k]) == IntToString(ids[k])
      {
        var s := IntToString(ids[k]);
        if k == 0 {
          assert ps[k] == s;
        } else {
          assert ps[k] == " " + s;
          TrimStartSpace(s);
        }
        TrimNoSpace(s);
        assert TrimStart(s) == s;
      }
      SplitJoin(ps, ',');
      ParsePiecesOf(ps, ids);
    }
  }

  // ---------------------------------------------------------------------------
  // The registry

  datatype AddReply = AddNoRights | AddNoReply | AlreadyYou | AlreadyAdmin | SystemAdmin | Added | AddFailed
  datatype RemoveReply = RemoveNoRights | RemoveNoReply | SelfRemoval | NotAnAdmin | ConfigAdmin | Removed
    | RemoveNotFound

  class AdminRegistry {
    /** ADMIN_IDS as bot.py holds it */
    var adminIds: seq<int>
    /** The ADMIN_IDS list of the config file */
    var fileIds: seq<int>
    /** CONFIG_ADMINS */
    const configAdmins: seq<int>

    /** The list in memory is the list in the file. */
    predicate Valid()
      reads this
    {
      adminIds == fileIds
    }

    constructor(ids: seq<int>, config: seq<int>)
      ensures Valid() && adminIds == ids && configAdmins == config
    {
      adminIds := ids;
      fileIds := ids;
      configAdmins := config;
    }

    /** update_admin_ids: an ID already in the file is success with nothing
        written; otherwise it is appended, the file rewritten and ADMIN_IDS
        set to the new list. written says whether the file write succeeds. */
    method UpdateAdminIds(newId: int, written: bool) returns (ok: bool)
      modifies this
      ensures newId in old(fileIds) ==> ok && fileIds == old(fileIds) && adminIds == old(adminIds)
      ensures newId !in old(fileIds) && written ==> ok && fileIds == old(fileIds) + [newId] && adminIds == fileIds
      ensures newId !in old(fileIds) && !written ==> !ok && fileIds == old(fileIds) && adminIds == old(adminIds)
    {
      var current := fileIds;
      if newId in current {
        return true;
      }
      current := current + [newId];
      if !written {
        return false;
      }
      fileIds := current;
      adminIds := current;
      return true;
    }

    /** remove_admin_from_config: the file's IDs other than adminId, built
        one by one; when none was dropped, "not found"; otherwise the file is
        rewritten and ADMIN_IDS set to the new list. */
    method RemoveAdminFromConfig(adminId: int, written: bool) returns (ok: bool)
      modifies this
      ensures ok <==> adminId in old(fileIds) && written
      ensures ok ==> fileIds == Without(old(fileIds), adminId) && adminIds == fileIds
      ensures !ok ==> fileIds == old(fileIds) && adminIds == old(adminIds)
    {
      var all := fileIds;
      var current: seq<int> := [];
      var i := 0;
      while i < |all|
        invariant 0 <= i <= |all|
        invariant current == Without(all[..i], adminId)
        invariant fileIds == all && adminIds == old(adminIds)
      {
        assert all[..i + 1] == all[..i] + [all[i]];
        WithoutAppend(all[..i], all[i], adminId);
        if all[i] != adminId {
          current := current + [all[i]];
        }
        i := i + 1;
      }
      assert all[..|all|] == all;
      WithoutSameLength(all, adminId);
      if |current| == |all| {
        return false;
      }
      if !written {
        return false;
      }
      fileIds := current;
      adminIds := current;
      return true;
    }

    /** /addadmin: only an admin, replying to the target's message; not
        oneself, not an admin already, not a config admin. */
    method AddAdminCommand(sender: int, target: Option<int>, written: bool) returns (reply: AddReply)
      requires Valid()
      modifies this
      ensures Valid()
      ensures reply == Added <==>
        && IsAdmin(sender, old(adminIds), configAdmins) && target.Some? && target.value != sender
        && target.value !in old(adminIds) && target.value !in configAdmins && written
      ensures reply == Added ==> adminIds == old(adminIds) + [target.value]
      ensures reply != Added ==> adminIds == old(adminIds)
    {
      if !IsAdmin(sender, adminIds, configAdmins) {
        return AddNoRights;
      }
      if target.None? {
        return AddNoReply;
      }
      var t := target.value;
      if t == sender {
        return AlreadyYou;
      }
      if t in adminIds {
        return AlreadyAdmin;
      }
      if t in configAdmins {
        return SystemAdmin;
      }
      var ok := UpdateAdminIds(t, written);
      reply := if ok then Added else AddFailed;
    }

    /** /removeadmin: only an admin, replying to the target's message; not
        oneself, only a listed admin, never a config admin. */
    method RemoveAdminCommand(sender: int, target: Option<int>, written: bool) returns (reply: RemoveReply)
      requires Valid()
      modifies this
      ensures Valid()
      ensures reply == Removed <==>
        && IsAdmin(sender, old(adminIds), configAdmins) && target.Some? && target.value != sender
        && target.value in old(adminIds) && target.value !in configAdmins && written
      ensures reply == Removed ==> adminIds == Without(old(adminIds), target.value)
      ensures reply != Removed ==> adminIds == old(adminIds)
      ensures reply != RemoveNotFound || !written
    {
      if !IsAdmin(sender, adminIds, configAdmins) {
        return RemoveNoRights;
      }
      if target.None? {
        return RemoveNoReply;
      }
      var t := target.value;
      if t == sender {
        return SelfRemoval;
      }
      if t !in adminIds {
        return NotAnAdmin;
      }
      if t in configAdmins {
        return ConfigAdmin;
      }
      var ok := RemoveAdminFromConfig(t, written);
      reply := if ok then Removed else RemoveNotFound;
    }
  }

  // ---------------------------------------------------------------------------
  // What the edits mean for is_admin

  /** After adding, the target is an admin, and so is everyone who was. */
  lemma AddedIsAdmin(ids: seq<int>, config: seq<int>, target: int, x: int)
    ensures IsAdmin(target, ids + [target], config)
    ensures IsAdmin(x, ids, config) ==> IsAdmin(x, ids + [target], config)
  {
  }

  /** After removing a target that is not a config admin, it is no longer an
      admin; everyone else keeps their status. */
  lemma RemovedIsNotAdmin(ids: seq<int>, config: seq<int>, target: int, x: int)
    requires target !in config
    ensures !IsAdmin(target, Without(ids, target), config)
    ensures x != target ==> (IsAdmin(x, Without(ids, target), config) <==> IsAdmin(x, ids, config))
  {
  }

  /** Adding an absent ID keeps the list free of duplicates. */
  lemma AddKeepsNoDuplicates(ids: seq<int>, id: int)
    requires NoDuplicates(ids) && id !in ids
    ensures NoDuplicates(ids + [id])
  {
    var r := ids + [id];
    forall i, j | 0 <= i < j < |r|
      ensures r[i] != r[j]
    {
      if j == |ids| {
        assert r[i] in ids;
      }
    }
  }
}
