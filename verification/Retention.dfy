/**
 Deleting archived conversations, oldest first, until the rollout files fit the limit.
 The directory is a map from file name to size in bytes.
 */
module Retention {

  type Files = map<string, nat>

  // --------------------------------------------------------------------- file names

  predicate IsSafe(c: char) {
    'a' <= c <= 'z' || 'A' <= c <= 'Z' || '0' <= c <= '9' || c == '-' || c == '_'
  }

  function Sanitized(id: string): string {
    seq(|id|, i requires 0 <= i < |id| => if IsSafe(id[i]) then id[i] else '_')
  }

  const DM_PREFIX := "agent:main:feishu:dm:"
  const GROUP_PREFIX := "agent:main:feishu:group:"
  const SUFFIX := ".rollout.jsonl"

  function CanonicalName(id: string): string {
    (if DM_PREFIX <= id then "feishu_dm_" + Sanitized(id[|DM_PREFIX|..])
     else if GROUP_PREFIX <= id then "feishu_group_" + Sanitized(id[|GROUP_PREFIX|..])
     else Sanitized(id)) + SUFFIX
  }

  function LegacyName(id: string): string {
    Sanitized(id) + SUFFIX
  }

  /** Letters, digits, hyphens and underscores stay, every other character becomes an
      underscore. */
  lemma SanitizedIs(id: string)
    ensures |Sanitized(id)| == |id|
    ensures forall i :: 0 <= i < |id| ==>
              var c := id[i];
              Sanitized(id)[i] ==
              if ('a' <= c && c <= 'z') || ('A' <= c && c <= 'Z') || ('0' <= c && c <= '9') || c == '-' || c == '_' then c else '_'
  {
  }

  /** The names of the files: direct and group chats have short ones of their own, all
      other conversations are named after their id, and so were all of them once. */
  lemma NamesAre(id: string)
    ensures CanonicalName("agent:main:feishu:dm:" + id) == "feishu_dm_" + Sanitized(id) + ".rollout.jsonl"
    ensures CanonicalName("agent:main:feishu:group:" + id) == "feishu_group_" + Sanitized(id) + ".rollout.jsonl"
    ensures !("agent:main:feishu:dm:" <= id) && !("agent:main:feishu:group:" <= id) ==> CanonicalName(id) == Sanitized(id) + ".rollout.jsonl"
    ensures LegacyName(id) == Sanitized(id) + ".rollout.jsonl"
  {
    hide Sanitized;
    var dm, group := DM_PREFIX + id, GROUP_PREFIX + id;
    assert dm[|DM_PREFIX|..] == id && group[|GROUP_PREFIX|..] == id;
    assert group[18] != DM_PREFIX[18];
  }

  /** Ids made of safe characters only have files of their own. */
  lemma SafeIdsDiffer(files: Files, a: string, b: string)
    requires a != b && (forall i :: 0 <= i < |a| ==> IsSafe(a[i])) && (forall i :: 0 <= i < |b| ==> IsSafe(b[i]))
    ensures CanonicalName(a) != CanonicalName(b) && FileOf(files, a) != FileOf(files, b)
  {
    NotPrefixed(a);
    NotPrefixed(b);
    NamesAre(a);
    NamesAre(b);
    assert Sanitized(a) == a && Sanitized(b) == b;
    hide CanonicalName, LegacyName, Sanitized;
    assert (a + SUFFIX)[..|a|] == a && (b + SUFFIX)[..|b|] == b;
  }

  lemma NotPrefixed(id: string)
    requires forall i :: 0 <= i < |id| ==> IsSafe(id[i])
    ensures !(DM_PREFIX <= id) && !(GROUP_PREFIX <= id)
  {
    if |id| > 5 {
      assert id[5] != ':' == DM_PREFIX[5] && id[5] != ':' == GROUP_PREFIX[5];
    }
  }

  /** The file a conversation's log is in, if it is anywhere. */
  function FileOf(files: Files, id: string): string {
    if CanonicalName(id) in files then CanonicalName(id)
    else if LegacyName(id) in files then LegacyName(id)
    else CanonicalName(id)
  }

  // ------------------------------------------------------------------- bytes on disk

  ghost function Total(files: Files): nat {
    if files == map[] then 0
    else
      var name :| name in files;
      files[name] + Total(files - {name})
  }

  lemma {:induction false} TotalRemove(files: Files, name: string)
    requires name in files
    ensures Total(files) == files[name] + Total(files - {name})
    decreases |files|
  {
    var other :| other in files && Total(files) == files[other] + Total(files - {other});
    if other != name {
      TotalRemove(files - {other}, name);
      TotalRemove(files - {name}, other);
      assert files - {other} - {name} == files - {name} - {other};
    }
  }

  /** Renaming a file leaves the total as it was. */
  lemma TotalRename(files: Files, from: string, to: string)
    requires from in files && to !in files
    ensures Total((files - {from})[to := files[from]]) == Total(files)
  {
    TotalRemove(files, from);
    TotalRemove((files - {from})[to := files[from]], to);
    assert (files - {from})[to := files[from]] - {to} == files - {from};
  }

  // ------------------------------------------------------------------ specification

  /** The directory after the logs of these conversations were deleted one by one. */
  function Deleted(files: Files, ids: seq<string>): Files {
    if ids == [] then files
    else
      var rest := Deleted(files, ids[..|ids| - 1]);
      rest - {FileOf(rest, ids[|ids| - 1])}
  }

  lemma NothingDeleted(files: Files)
    ensures Deleted(files, []) == files
  {
  }

  lemma DeletedStep(files: Files, ids: seq<string>, k: nat)
    requires k < |ids|
    ensures Deleted(files, ids[..k + 1]) == Deleted(files, ids[..k]) - {FileOf(Deleted(files, ids[..k]), ids[k])}
  {
    assert ids[..k + 1][..k] == ids[..k];
  }

  // ----------------------------------------------------------------------- the store

  class ArchiveStore {
    var files: Files
    /** Archived conversations, the one updated longest ago first. */
    var archived: seq<string>

    constructor (files: Files, archived: seq<string>)
      ensures this.files == files && this.archived == archived
    {
      this.files := files;
      this.archived := archived;
    }

    /** `rollout_path`: a log under its legacy name is moved first. */
    method RolloutPath(id: string) returns (path: string)
      modifies `files
      ensures path == if FileOf(old(files), id) in old(files) then CanonicalName(id) else FileOf(old(files), id)
      ensures FileOf(old(files), id) !in old(files) ==> files == old(files)
      ensures FileOf(old(files), id) in old(files) ==>
                path in files && files[path] == old(files)[FileOf(old(files), id)]
                && files - {path} == old(files) - {FileOf(old(files), id)}
      ensures Total(files) == Total(old(files))
    {
      hide Total, Sanitized;
      var canonical, legacy := CanonicalName(id), LegacyName(id);
      if canonical != legacy && legacy in files && canonical !in files {
        TotalRename(files, legacy, canonical);
        files := (files - {legacy})[canonical := files[legacy]];
      }
      path := canonical;
      if canonical !in files && legacy in files {
        path := legacy;
      }
    }

    method TotalSessionBytes() returns (total: nat)
      ensures total == Total(files)
    {
      total := 0;
      var rest := files;
      while rest != map[]
        invariant total + Total(rest) == Total(files)
        decreases |rest|
      {
        var name :| name in rest;
        TotalRemove(rest, name);
        total := total + rest[name];
        rest := rest - {name};
      }
    }

    /** `prune_archived_conversations_to_limit_locked`: the shortest run of archived
        conversations that brings the total to the limit, or all of them, is deleted.
        The running total is what is on disk throughout. */
    method PruneArchivedConversations(maxBytes: nat) returns (pruned: nat)
      requires forall i, j :: 0 <= i < j < |archived| ==> archived[i] != archived[j]
      modifies this
      ensures pruned <= |old(archived)| && archived == old(archived)[pruned..]
      ensures files == Deleted(old(files), old(archived)[..pruned])
      ensures Total(files) <= maxBytes || archived == []
      ensures forall k :: 0 <= k < pruned ==> Total(Deleted(old(files), old(archived)[..k])) > maxBytes
    {
      hide Total, FileOf, CanonicalName, LegacyName, Deleted;
      pruned := 0;
      assert archived[..0] == [];
      NothingDeleted(files);
      var total := TotalSessionBytes();
      if total <= maxBytes {
        return;
      }
      ghost var start := files;
      var rows := archived;
      while pruned < |rows| && total > maxBytes
        invariant pruned <= |rows| && archived == rows[pruned..]
        invariant files == Deleted(start, rows[..pruned]) && total == Total(files)
        invariant forall k :: 0 <= k < pruned ==> Total(Deleted(start, rows[..k])) > maxBytes
      {
        ghost var before := files;
        var rollout := RolloutPath(rows[pruned]);
        var reclaimed := 0;
        if rollout in files {
          reclaimed := files[rollout];
          TotalRemove(files, rollout);
        } else {
          assert files - {rollout} == files;
        }
        files := files - {rollout};
        archived := archived[1..];
        total := if total >= reclaimed then total - reclaimed else 0;
        DeletedStep(start, rows, pruned);
        assert files == before - {FileOf(before, rows[pruned])};
        pruned := pruned + 1;
      }
    }
  }

  // ---------------------------------------------------------------------- properties

  /** Nothing is added or changed, and only files named after the conversations go. */
  lemma {:induction false} DeletesOnlyTheirs(files: Files, ids: seq<string>)
    ensures var after := Deleted(files, ids);
            && (forall name :: name in after ==> name in files && after[name] == files[name])
            && (forall name :: name in files && name !in after ==>
                  exists id :: id in ids && (name == CanonicalName(id) || name == LegacyName(id)))
  {
    hide CanonicalName, LegacyName;
    if ids != [] {
      var last := ids[|ids| - 1];
      DeletesOnlyTheirs(files, ids[..|ids| - 1]);
      assert last in ids;
      assert forall id :: id in ids[..|ids| - 1] ==> id in ids;
    }
  }

  /** After one deletion another conversation's log is still there exactly when the two
      logs were different files. */
  lemma OneDeletionExactly(files: Files, id: string, other: string)
    requires FileOf(files, other) in files
    ensures var after := Deleted(files, [id]);
            && (FileOf(files, other) in after <==> FileOf(files, id) != FileOf(files, other))
            && (FileOf(files, other) in after ==>
                  FileOf(after, other) == FileOf(files, other) && after[FileOf(after, other)] == files[FileOf(files, other)])
  {
    hide CanonicalName, LegacyName;
    assert [id][..0] == [];
  }

  /** The k-th deletion takes the file of this name: it is the conversation's canonical
      name, or its legacy name and the canonical file was not there or already taken. */
  predicate Takes(files: Files, ids: seq<string>, k: nat, name: string)
    requires k < |ids|
    decreases k, 1
  {
    || CanonicalName(ids[k]) == name
    || (LegacyName(ids[k]) == name
        && (CanonicalName(ids[k]) !in files || TakenBefore(files, ids, k, CanonicalName(ids[k]))))
  }

  /** One of the first k deletions takes it. */
  predicate TakenBefore(files: Files, ids: seq<string>, k: nat, name: string)
    requires k <= |ids|
    decreases k, 0
  {
    k > 0 && (TakenBefore(files, ids, k - 1, name) || Takes(files, ids, k - 1, name))
  }

  /** A file survives a run of deletions exactly when none of them takes it. */
  lemma {:induction false} SurvivesExactly(files: Files, ids: seq<string>, n: nat, name: string)
    requires n <= |ids|
    ensures name in Deleted(files, ids[..n]) <==> name in files && !TakenBefore(files, ids, n, name)
    decreases n
  {
    hide CanonicalName, LegacyName;
    if n == 0 {
      assert ids[..0] == [];
    } else {
      SurvivesExactly(files, ids, n - 1, name);
      SurvivesExactly(files, ids, n - 1, CanonicalName(ids[n - 1]));
      DeletedStep(files, ids, n - 1);
    }
  }

  /** Different conversations have different files. */
  ghost predicate DistinctFiles(files: Files, ids: seq<string>) {
    forall i, j :: 0 <= i < j < |ids| ==> FileOf(files, ids[i]) != FileOf(files, ids[j])
  }

  /** While logs are different files, the deletions take the logs they are meant to, and
      every other conversation keeps its own byte for byte. */
  lemma {:induction false} OthersKeepTheirLogs(files: Files, ids: seq<string>, other: string)
    requires DistinctFiles(files, ids + [other])
    ensures var after := Deleted(files, ids);
            && after == files - (set id | id in ids :: FileOf(files, id))
            && FileOf(after, other) == FileOf(files, other)
            && (FileOf(files, other) in files <==> FileOf(files, other) in after)
            && (FileOf(files, other) in files ==> after[FileOf(files, other)] == files[FileOf(files, other)])
    decreases |ids|
  {
    hide CanonicalName, LegacyName;
    if ids != [] {
      var front, last := ids[..|ids| - 1], ids[|ids| - 1];
      assert ids + [other] == front + [last] + [other];
      DistinctParts(files, front, last, other);
      OthersKeepTheirLogs(files, front, last);
      OthersKeepTheirLogs(files, front, other);
      assert ids == front + [last];
      assert (set id | id in ids :: FileOf(files, id)) == (set id | id in front :: FileOf(files, id)) + {FileOf(files, last)};
    }
  }

  lemma DistinctParts(files: Files, front: seq<string>, last: string, other: string)
    requires DistinctFiles(files, front + [last] + [other])
    ensures DistinctFiles(files, front + [last]) && DistinctFiles(files, front + [other])
    ensures FileOf(files, last) != FileOf(files, other)
  {
    hide FileOf;
    var all := front + [last] + [other];
    assert all[|front|] == last && all[|front| + 1] == other;
    assert forall i :: 0 <= i < |front| ==> all[i] == front[i];
  }

  /** An input: two conversations that share a file, and one's log goes with the other's. */
  lemma SharedFile(files: Files)
    requires CanonicalName("a_b") in files
    ensures "a:b" != "a_b" && CanonicalName("a:b") == CanonicalName("a_b")
    ensures CanonicalName("a_b") !in Deleted(files, ["a:b"])
  {
    assert Sanitized("a:b") == "a_b" == Sanitized("a_b");
    assert "a:b"[1] != "a_b"[1];
    assert !(DM_PREFIX <= "a:b") && !(GROUP_PREFIX <= "a:b");
    assert !(DM_PREFIX <= "a_b") && !(GROUP_PREFIX <= "a_b");
    assert ["a:b"][..0] == [];
  }

  /** A deleted conversation is gone unless it had a log under each of two names: then
      the one under the legacy name stays. */
  lemma GoneExactly(files: Files, id: string)
    ensures var after := Deleted(files, [id]);
            FileOf(after, id) in after
            <==> CanonicalName(id) != LegacyName(id) && CanonicalName(id) in files && LegacyName(id) in files
  {
    hide CanonicalName, LegacyName;
    assert [id][..0] == [];
  }
}
