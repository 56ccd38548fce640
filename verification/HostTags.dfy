/** Host tags: normalising a list, replacing a host's tags, and finding hosts by a count
    (internal/host/service.go:78-87, 684-699 and internal/host/sqlite/host.go:46-86, 187-222). */
module HostTags {
  import opened Identifiers
  import opened Ordering
  import opened Text
  import opened Columns

  /** `normalizeTags`: each tag that is not blank, once, at its first occurrence. */
  function NormalizeTags(tags: seq<string>): seq<string> {
    if tags == [] then []
    else
      var before := NormalizeTags(tags[..|tags| - 1]);
      var tag := Normalized(tags[|tags| - 1]);
      if tag == "" || tag in before then before else before + [tag]
  }

  /** The distinct tags a list asks for. */
  function TagSet(tags: seq<string>): set<string> {
    (set tag | tag in tags :: Normalized(tag)) - {""}
  }

  predicate IsNormalized(tag: string) {
    tag != "" && Normalized(tag) == tag
  }

  lemma {:induction false} NormalizeTagsIsTagSet(tags: seq<string>)
    ensures Elements(NormalizeTags(tags)) == TagSet(tags)
    ensures Distinct(NormalizeTags(tags))
    ensures forall tag :: tag in NormalizeTags(tags) ==> IsNormalized(tag)
  {
    if tags != [] {
      var n := |tags| - 1;
      NormalizeTagsIsTagSet(tags[..n]);
      NormalizedIsIdempotent(tags[n]);
      assert tags == tags[..n] + [tags[n]];
      forall tag
        ensures tag in TagSet(tags) <==> tag in TagSet(tags[..n]) || (tag == Normalized(tags[n]) && tag != "")
      {
        if tag in TagSet(tags) {
          var raw :| raw in tags && Normalized(raw) == tag;
          assert raw in tags[..n] || raw == tags[n];
        }
      }
      assert forall tag :: tag in NormalizeTags(tags) <==> tag in TagSet(tags);
    }
  }

  /** Normalising what is normalised changes nothing. */
  lemma {:induction false} NormalizeTagsKeeps(tags: seq<string>)
    requires Distinct(tags) && forall tag :: tag in tags ==> IsNormalized(tag)
    ensures NormalizeTags(tags) == tags
  {
    if tags != [] {
      var n := |tags| - 1;
      assert tags == tags[..n] + [tags[n]];
      assert tags[n] in tags;
      NormalizeTagsKeeps(tags[..n]);
    }
  }

  /** Hence it is idempotent. */
  lemma NormalizeTagsIsIdempotent(tags: seq<string>)
    ensures NormalizeTags(NormalizeTags(tags)) == NormalizeTags(tags)
  {
    NormalizeTagsIsTagSet(tags);
    NormalizeTagsKeeps(NormalizeTags(tags));
  }

  /** The loop with its `seen` set. */
  method NormalizeTagsLoop(tags: seq<string>) returns (result: seq<string>)
    ensures result == NormalizeTags(tags)
  {
    result := [];
    var seen: set<string> := {};
    for i := 0 to |tags|
      invariant result == NormalizeTags(tags[..i]) && seen == Elements(result)
    {
      assert tags[..i + 1][..i] == tags[..i];
      var normalized := Lower(Trim(tags[i]));
      if normalized == "" {
        continue;
      }
      if normalized in seen {
        continue;
      }
      seen := seen + {normalized};
      result := result + [normalized];
    }
    assert tags[..|tags|] == tags;
  }

  // ---------------------------------------------------------------- the tables

  /** The tables `tag` (by identifier) and `host_tag`; `limit` is that of the names. */
  datatype Tables = Tables(limit: Limit, names: map<nat, string>, hostTags: set<(UUID, nat)>, nextID: nat)

  /** The databases' trim and lower, as the table's check constraints use them. */
  function TrimBlanks(s: string): string {
    if s == "" then ""
    else if s[0] == ' ' then TrimBlanks(s[1..])
    else if s[|s| - 1] == ' ' then TrimBlanks(s[..|s| - 1])
    else s
  }

  /** check (name = lower(trim(name))) and check (length(trim(name)) > 0) */
  predicate MeetsChecks(name: string) {
    name == Lower(TrimBlanks(name)) && |TrimBlanks(name)| > 0
  }

  lemma {:induction false} TrimBlanksExactly(s: string)
    ensures |TrimBlanks(s)| <= |s|
    ensures TrimBlanks(s) == s <==> s == "" || (s[0] != ' ' && s[|s| - 1] != ' ')
    ensures |TrimBlanks(s)| == |s| <==> TrimBlanks(s) == s
  {
    if s != "" && s[0] == ' ' {
      TrimBlanksExactly(s[1..]);
    } else if s != "" && s[|s| - 1] == ' ' {
      TrimBlanksExactly(s[..|s| - 1]);
    }
  }

  /** The checks let a name through exactly when it is not empty, has no blank at either
      end and no capital letter. */
  lemma MeetsChecksExactly(name: string)
    ensures MeetsChecks(name) <==>
            && name != "" && name[0] != ' ' && name[|name| - 1] != ' '
            && forall i :: 0 <= i < |name| ==> name[i] !in "ABCDEFGHIJKLMNOPQRSTUVWXYZ"
  {
    TrimBlanksExactly(name);
    if name == Lower(TrimBlanks(name)) {
      assert |name| == |TrimBlanks(name)|;
    }
    forall i | 0 <= i < |name|
      ensures Lower(name)[i] == name[i] <==> name[i] !in "ABCDEFGHIJKLMNOPQRSTUVWXYZ"
    {
      LowerExactly(name, i);
      CapitalChanges(name[i]);
    }
  }

  lemma CapitalChanges(c: char)
    ensures LowerChar(c) == c <==> c !in "ABCDEFGHIJKLMNOPQRSTUVWXYZ"
  {
    if 'A' <= c <= 'Z' {
      assert "ABCDEFGHIJKLMNOPQRSTUVWXYZ"[c as int - 'A' as int] == c;
    }
  }

  /** The column keeps the name, and what it keeps meets the checks. */
  predicate CheckedName(limit: Limit, name: string) {
    Stored(limit, name).Some? && MeetsChecks(Stored(limit, name).value)
  }

  lemma NormalizedNamesAreChecked(limit: Limit, tag: string)
    requires IsNormalized(tag)
    ensures CheckedName(limit, tag) <==> Fits(limit, tag)
    ensures Kept(limit, tag) == tag
  {
    TrimIsTrimmed(tag);
    LowerIsIdempotent(Trim(tag));
    assert Trimmed(Trim(tag)) && Trimmed(Normalized(tag));
    assert TrimBlanks(tag) == tag;
    LowerIsIdempotent(tag);
    assert Lower(tag) == tag;
    TrimmedIsNotCut(limit, tag);
  }

  ghost predicate ValidTables(db: Tables) {
    && (forall id :: id in db.names ==> id < db.nextID && MeetsChecks(db.names[id]))
    && (forall a, b :: a in db.names && b in db.names && db.names[a] == db.names[b] ==> a == b)
    && (forall ht :: ht in db.hostTags ==> ht.1 in db.names)
  }

  /** The names of a host's tags: host_tag joined with tag. */
  function HostTagNames(db: Tables, hostID: UUID): set<string> {
    set ht | ht in db.hostTags && ht.0 == hostID && ht.1 in db.names :: db.names[ht.1]
  }

  /** The host carries exactly the tags `done`; every other host and every tag that
      was there before is as it was. */
  ghost predicate Synced(was: Tables, now: Tables, hostID: UUID, done: seq<string>) {
    && ValidTables(now) && now.limit == was.limit
    && HostTagNames(now, hostID) == Elements(done)
    && OthersUnchanged(was, now, hostID)
    && NamesKept(was, now)
  }

  ghost predicate OthersUnchanged(was: Tables, now: Tables, hostID: UUID) {
    forall h :: h != hostID ==> HostTagNames(now, h) == HostTagNames(was, h)
  }

  ghost predicate NamesKept(was: Tables, now: Tables) {
    forall id :: id in was.names ==> id in now.names && now.names[id] == was.names[id]
  }

  /** What the column keeps of each name. */
  function KeptNames(limit: Limit, tags: seq<string>): seq<string> {
    seq(|tags|, i requires 0 <= i < |tags| => Kept(limit, tags[i]))
  }

  class HostRepository {
    const limit: Limit
    var names: map<nat, string>
    var hostTags: set<(UUID, nat)>
    var nextID: nat

    function View(): Tables
      reads this
    {
      Tables(limit, names, hostTags, nextID)
    }

    /** `syncHostTags`: the host's tags are deleted, then each is inserted, sharing
        the rows of the tag table. Exactly the given tags are left on the host, as the
        column keeps them, no other host's tags change, and no tag is renamed or
        dropped. A name that does not fit or violates the table's checks fails the
        transaction, which leaves all as it was. */
    method SyncHostTags(hostID: UUID, tags: seq<string>) returns (ok: bool)
      requires ValidTables(View())
      modifies this
      ensures ok <==> AllChecked(limit, tags)
      ensures if ok then Synced(old(View()), View(), hostID, KeptNames(limit, tags)) else View() == old(View())
    {
      var tx: Tables;
      ok, tx := SyncStatements(View(), hostID, tags);
      if ok {
        names, hostTags, nextID := tx.names, tx.hostTags, tx.nextID;
      }
    }

    static method SyncStatements(db: Tables, hostID: UUID, tags: seq<string>) returns (ok: bool, tx: Tables)
      requires ValidTables(db)
      ensures ok <==> AllChecked(db.limit, tags)
      ensures ok ==> Synced(db, tx, hostID, KeptNames(db.limit, tags))
    {
      tx := db.(hostTags := set ht | ht in db.hostTags && ht.0 != hostID);
      for i := 0 to |tags|
        invariant Synced(db, tx, hostID, KeptNames(db.limit, tags[..i]))
        invariant AllChecked(db.limit, tags[..i])
      {
        TagsStep(db.limit, tags, i);
        ok, tx := SyncOne(db, tx, hostID, tags[i], KeptNames(db.limit, tags[..i]));
        if !ok {
          return;
        }
      }
      assert tags[..|tags|] == tags;
      ok := true;
    }

    /** One tag of a host: its row is found or made, and linked. */
    static method SyncOne(ghost was: Tables, db: Tables, hostID: UUID, name: string, ghost done: seq<string>)
      returns (ok: bool, after: Tables)
      requires Synced(was, db, hostID, done)
      ensures ok <==> CheckedName(was.limit, name)
      ensures ok ==> Synced(was, after, hostID, done + [Kept(was.limit, name)])
    {
      var tagID: nat;
      ok, after, tagID := UpsertTag(db, name);
      if ok {
        LinkTag(after, hostID, tagID);
        var link: (UUID, nat) := (hostID, tagID);
        after := after.(hostTags := after.hostTags + {link});
      }
    }

    /** insert into tag ... on conflict(name) do ...; the identifier of the row with the name */
    static method UpsertTag(db: Tables, name: string) returns (ok: bool, after: Tables, id: nat)
      requires ValidTables(db)
      ensures ok <==> CheckedName(db.limit, name)
      ensures ok ==> Upserted(db, after, Kept(db.limit, name), id)
    {
      if !CheckedName(db.limit, name) {
        return false, db, 0;
      }
      var kept := Stored(db.limit, name).value;
      if k :| k in db.names && db.names[k] == kept {
        return true, db, k;
      }
      ok, after, id := true, db.(names := db.names[db.nextID := kept], nextID := db.nextID + 1), db.nextID;
    }
  }

  lemma TagsStep(limit: Limit, tags: seq<string>, i: nat)
    requires i < |tags|
    ensures KeptNames(limit, tags[..i + 1]) == KeptNames(limit, tags[..i]) + [Kept(limit, tags[i])]
    ensures AllChecked(limit, tags[..i + 1]) <==> AllChecked(limit, tags[..i]) && CheckedName(limit, tags[i])
    ensures AllChecked(limit, tags) ==> AllChecked(limit, tags[..i + 1])
  {
    assert tags[..i + 1] == tags[..i] + [tags[i]];
  }

  /** The tag is there, and nothing else about any host or tag has changed. */
  ghost predicate Upserted(before: Tables, after: Tables, name: string, id: nat) {
    && ValidTables(after) && after.limit == before.limit && after.hostTags == before.hostTags && NamesKept(before, after)
    && (forall h :: HostTagNames(after, h) == HostTagNames(before, h))
    && id in after.names && after.names[id] == name
  }

  /** What the service hands to `syncHostTags` is kept exactly when every tag fits its
      column, and then the host has exactly the tags asked for. */
  lemma ServiceTagsSyncExactly(was: Tables, now: Tables, hostID: UUID, tags: seq<string>)
    ensures AllChecked(was.limit, NormalizeTags(tags)) <==> forall tag :: tag in TagSet(tags) ==> Fits(was.limit, tag)
    ensures Synced(was, now, hostID, KeptNames(was.limit, NormalizeTags(tags))) ==> HostTagNames(now, hostID) == TagSet(tags)
  {
    var names := NormalizeTags(tags);
    NormalizeTagsIsTagSet(tags);
    assert forall tag :: tag in names <==> tag in Elements(names);
    forall i | 0 <= i < |names|
      ensures CheckedName(was.limit, names[i]) <==> Fits(was.limit, names[i])
      ensures KeptNames(was.limit, names)[i] == names[i]
    {
      NormalizedNamesAreChecked(was.limit, names[i]);
    }
    assert KeptNames(was.limit, names) == names;
  }

  predicate AllChecked(limit: Limit, tags: seq<string>) {
    forall i :: 0 <= i < |tags| ==> CheckedName(limit, tags[i])
  }

  /** Linking a tag adds its name to its host, and to no other. */
  lemma LinkTag(db: Tables, hostID: UUID, tagID: nat)
    requires tagID in db.names
    ensures var after := db.(hostTags := db.hostTags + {(hostID, tagID)});
            && HostTagNames(after, hostID) == HostTagNames(db, hostID) + {db.names[tagID]}
            && forall h :: h != hostID ==> HostTagNames(after, h) == HostTagNames(db, h)
  {
    var after := db.(hostTags := db.hostTags + {(hostID, tagID)});
    forall h, t
      ensures t in HostTagNames(after, h) <==> t in HostTagNames(db, h) || (h == hostID && t == db.names[tagID])
    {
      if h == hostID && t == db.names[tagID] {
        assert (hostID, tagID) in after.hostTags;
      }
    }
  }

  // ---------------------------------------------------------------- filtering by count

  /** The condition of the tag filter: among the host's tags that the filter names,
      count(distinct name) equals the length of the filter. Without a filter the
      condition is left out. */
  predicate MatchesByCount(hostTags: set<string>, filter: seq<string>) {
    filter == [] || |set name | name in hostTags && name in filter| == |filter|
  }

  /** The repository's filter is exact for the lists it is given precisely when they
      hold no tag twice; a repeated tag makes it match nothing. */
  lemma CountFilterExactly(hostTags: set<string>, filter: seq<string>)
    ensures MatchesByCount(hostTags, filter) <==> Distinct(filter) && Elements(filter) <= hostTags
  {
    var found := set name | name in hostTags && name in filter;
    ElementsSize(filter);
    assert found <= Elements(filter);
    SubsetSize(found, Elements(filter));
    if |found| == |filter| {
      assert found == Elements(filter) by { SameSize(found, Elements(filter)); }
    }
    if Elements(filter) <= hostTags {
      assert found == Elements(filter);
    }
  }

  lemma {:induction false} ElementsSize<T(!new)>(s: seq<T>)
    ensures |Elements(s)| <= |s|
    ensures |Elements(s)| == |s| <==> Distinct(s)
  {
    if s != [] {
      var n := |s| - 1;
      ElementsSize(s[..n]);
      assert s == s[..n] + [s[n]];
      if s[n] in s[..n] {
        assert Elements(s) == Elements(s[..n]);
        var i :| 0 <= i < n && s[..n][i] == s[n];
        assert s[i] == s[n];
      } else {
        assert Elements(s) == Elements(s[..n]) + {s[n]};
      }
    }
  }

  /** `Service.ListHosts`: whatever list of tags is asked for, repeated and unkempt
      as it may be, a host is returned exactly when it carries every one of them. */
  lemma FilterFindsExactlyTheTagged(hostTags: set<string>, requested: seq<string>)
    ensures MatchesByCount(hostTags, NormalizeTags(requested)) <==> TagSet(requested) <= hostTags
  {
    NormalizeTagsIsTagSet(requested);
    CountFilterExactly(hostTags, NormalizeTags(requested));
  }
}
