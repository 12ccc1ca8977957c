/** Database upgrades: the rename of audit event keys under crashes, and the version loop. */
module DatabaseMigration {
  import opened Text

  const OLD := ".audit."
  const NEW := ".auditeventpublisher."

  type Events = map<string, string>

  // ----- one key -----

  /** The text ".audit." stands at position p. */
  predicate OccursAt(s: string, p: nat) {
    && p + 7 <= |s|
    && s[p] == '.' && s[p + 1] == 'a' && s[p + 2] == 'u' && s[p + 3] == 'd' && s[p + 4] == 'i' && s[p + 5] == 't'
    && s[p + 6] == '.'
  }

  predicate Contains(s: string) {
    exists p :: 0 <= p < |s| && OccursAt(s, p)
  }

  /** `std::string::find` from position p on. */
  function FindFrom(s: string, p: nat): (r: Option<nat>)
    ensures r.Some? ==> p <= r.value && OccursAt(s, r.value) && forall q :: p <= q < r.value ==> !OccursAt(s, q)
    ensures r.None? ==> forall q :: p <= q < |s| ==> !OccursAt(s, q)
    decreases |s| - p
  {
    if p >= |s| then None else if OccursAt(s, p) then Some(p) else FindFrom(s, p + 1)
  }

  function Replace(s: string, p: nat): string
    requires OccursAt(s, p)
  {
    s[..p] + NEW + s[p + 7..]
  }

  /** The name a key has after the migration. */
  function Final(s: string): string {
    match FindFrom(s, 0)
    case None => s
    case Some(p) => Replace(s, p)
  }

  /** At most one occurrence, overlapping ones counted. */
  predicate AtMostOnce(s: string) {
    forall p, q :: 0 <= p < |s| && 0 <= q < |s| && OccursAt(s, p) && OccursAt(s, q) ==> p == q
  }

  lemma ReplaceChars(s: string, p: nat)
    requires OccursAt(s, p)
    ensures var n := Replace(s, p);
            && |n| == |s| + 14
            && (forall x :: 0 <= x < p ==> n[x] == s[x])
            && (forall x :: 0 <= x < 21 ==> n[p + x] == NEW[x])
            && (forall x :: p + 21 <= x < |n| ==> n[x] == s[x - 14])
  {
  }

  /** An occurrence in the new name was another occurrence in the old one. */
  lemma OldOccurrence(s: string, p: nat, r: nat)
    requires OccursAt(s, p) && OccursAt(Replace(s, p), r)
    ensures (r + 6 <= p && OccursAt(s, r)) || (r == p + 20 && OccursAt(s, p + 6)) || (r > p + 20 && OccursAt(s, r - 14))
  {
    var n := Replace(s, p);
    ReplaceChars(s, p);
    hide Replace;
    assert n[p] == NEW[0] == s[p] && n[p + 6] == NEW[6];
  }

  lemma NoNewOccurrence(s: string, p: nat, r: nat)
    requires OccursAt(s, p) && AtMostOnce(s)
    ensures !OccursAt(Replace(s, p), r)
  {
    if OccursAt(Replace(s, p), r) {
      OldOccurrence(s, p, r);
    }
  }

  lemma OtherOccurrence(s: string, p: nat, q: nat)
    requires OccursAt(s, p) && OccursAt(s, q) && p < q
    ensures OccursAt(Replace(s, p), q + 14)
  {
    ReplaceChars(s, p);
    var n := Replace(s, p);
    hide Replace;
    assert q >= p + 6 && n[p + 20] == NEW[20];
  }

  lemma {:induction false} RenamedLonger(s: string)
    ensures Contains(s) ==> |Final(s)| == |s| + 14
    ensures !Contains(s) ==> Final(s) == s
  {
    if FindFrom(s, 0).Some? {
      ReplaceChars(s, FindFrom(s, 0).value);
    }
  }

  /** The new name is free of the old text, so that a second run leaves it alone, exactly when the
      old text occurred at most once, overlaps counted. */
  lemma SettledIff(s: string)
    ensures !Contains(Final(s)) <==> AtMostOnce(s)
    ensures Final(Final(s)) == Final(s) <==> AtMostOnce(s)
  {
    RenamedLonger(Final(s));
    if AtMostOnce(s) {
      FinalIsSettled(s);
    } else {
      var p := FindFrom(s, 0).value;
      var q :| 0 <= q < |s| && OccursAt(s, q) && q != p;
      hide FindFrom;
      OtherOccurrence(s, p, q);
    }
  }

  /** A renamed key is not renamed again. */
  lemma FinalIsSettled(s: string)
    requires AtMostOnce(s)
    ensures !Contains(Final(s)) && AtMostOnce(Final(s)) && Final(Final(s)) == Final(s)
    ensures Final(s) == s <==> !Contains(s)
  {
    var n := Final(s);
    if FindFrom(s, 0).Some? {
      var p := FindFrom(s, 0).value;
      ReplaceChars(s, p);
      forall r: nat
        ensures !OccursAt(n, r)
      {
        NoNewOccurrence(s, p, r);
      }
    }
  }

  /** A key before and after. */
  lemma RenamedKey()
    ensures Final(".audit.7") == ".auditeventpublisher.7"
  {
    hide FindFrom, OccursAt, Replace;
    StartsWithOld("7");
    FirstIsFound(OLD + "7", 0);
    assert OLD + "7" == ".audit.7" && NEW + "7" == ".auditeventpublisher.7";
  }

  /** Two occurrences that overlap, or two that do not: the second run renames again. */
  lemma RenamedAgain()
    ensures Final(Final(".audit.audit.")) != Final(".audit.audit.")
    ensures Final(Final("x.audit.y.audit.z")) != Final("x.audit.y.audit.z")
  {
    hide Final, FindFrom;
    var s, t := ".audit.audit.", "x.audit.y.audit.z";
    assert OccursAt(s, 0) && OccursAt(s, 6);
    assert OccursAt(t, 1) && OccursAt(t, 9);
    SettledIff(s);
    SettledIff(t);
  }

  // ----- the whole map -----

  ghost predicate Renamable(db: Events) {
    forall k :: k in db ==> AtMostOnce(k)
  }

  /** No two keys end up under one name; in particular no other key already has a target name. */
  ghost predicate DistinctTargets(db: Events) {
    forall k, k' :: k in db && k' in db && Final(k) == Final(k') ==> k == k'
  }

  /** The migrated map. */
  ghost function Migrated(db: Events): Events
    requires DistinctTargets(db)
  {
    map k | k in db :: Final(k) := db[k]
  }

  function TargetNames(db: Events): set<string> {
    set k | k in db :: Final(k)
  }

  /** Somewhere between the original map and its migration: every key stands for its target. */
  ghost predicate Midway(goal: Events, db: Events) {
    && Renamable(db)
    && (forall k :: k in db ==> Final(k) in goal && goal[Final(k)] == db[k])
    && TargetNames(db) == goal.Keys
  }

  lemma StartIsMidway(db: Events)
    requires Renamable(db) && DistinctTargets(db)
    ensures Midway(Migrated(db), db)
  {
  }

  lemma CopyKeeps(goal: Events, db: Events, k: string)
    requires Renamable(db) && k in db
    ensures var after := db[Final(k) := db[k]];
            && Renamable(after) && (Midway(goal, db) ==> Midway(goal, after))
            && TargetNames(after) == TargetNames(db)
  {
    FinalIsSettled(k);
    hide Final, AtMostOnce;
    var after := db[Final(k) := db[k]];
    assert forall n :: n in TargetNames(db) ==> n in TargetNames(after);
  }

  lemma DropKeeps(goal: Events, db: Events, k: string)
    requires Renamable(db) && k in db && Final(k) in db && Final(k) != k
    ensures var after := db - {k};
            && Renamable(after) && (Midway(goal, db) ==> Midway(goal, after))
            && TargetNames(after) == TargetNames(db)
  {
    FinalIsSettled(k);
    hide Final, AtMostOnce;
    var after := db - {k};
    forall n | n in TargetNames(db)
      ensures n in TargetNames(after)
    {
      var k' :| k' in db && Final(k') == n;
      if k' == k {
        assert Final(k) in after;
      } else {
        assert k' in after;
      }
    }
  }

  lemma Finished(goal: Events, db: Events)
    requires Renamable(db) && forall k :: k in db ==> !Contains(k)
    ensures db.Keys == TargetNames(db) && (Midway(goal, db) ==> db == goal)
  {
    forall k | k in db
      ensures Final(k) == k
    {
      FinalIsSettled(k);
    }
    hide Final, AtMostOnce;
    assert forall k :: k in db ==> k in TargetNames(db);
    if Midway(goal, db) {
      assert forall n :: n in goal ==> n in TargetNames(db);
    }
  }

  /** No key is lost exactly when the targets are distinct. */
  lemma KeysKeptIffDistinct(db: Events)
    ensures |TargetNames(db)| == |db| <==> DistinctTargets(db)
  {
    hide Final;
    ImageSize(db.Keys);
    assert TargetNames(db) == Image(db.Keys);
    assert |db.Keys| == |db|;
  }

  function Image(keys: set<string>): set<string> {
    set k | k in keys :: Final(k)
  }

  ghost predicate DistinctOn(keys: set<string>) {
    forall k, k' :: k in keys && k' in keys && Final(k) == Final(k') ==> k == k'
  }

  lemma {:induction false} ImageSize(keys: set<string>)
    ensures |Image(keys)| <= |keys|
    ensures |Image(keys)| == |keys| <==> DistinctOn(keys)
  {
    hide Final;
    if keys != {} {
      var x :| x in keys;
      var rest := keys - {x};
      ImageSize(rest);
      assert Image(keys) == Image(rest) + {Final(x)};
      if Final(x) in Image(rest) {
        assert Image(keys) == Image(rest);
      } else {
        assert |Image(keys)| == |Image(rest)| + 1;
      }
    }
  }

  lemma NoneEarlier(x: string, q: nat)
    requires |x| > 0 && x[0] != 'a' && forall i :: 0 <= i < |x| ==> x[i] != '.'
    requires q < 21 + |x|
    ensures !OccursAt(NEW + x + OLD, q)
  {
    var b := NEW + x + OLD;
    if q >= 21 {
      assert b[q] == x[q - 21];
    } else if q == 20 {
      assert b[21] == x[0];
    } else {
      assert b[q] == NEW[q] && b[6] == NEW[6];
    }
  }

  lemma FirstIsFound(s: string, p: nat)
    requires OccursAt(s, p) && forall q :: 0 <= q < p ==> !OccursAt(s, q)
    ensures FindFrom(s, 0) == Some(p)
  {
    hide FindFrom;
  }

  lemma EndsInOld(p: string)
    ensures OccursAt(p + OLD, |p|) && Replace(p + OLD, |p|) == p + NEW
  {
    assert (p + OLD)[..|p|] == p && (p + OLD)[|p| + 7..] == [];
  }

  lemma StartsWithOld(r: string)
    ensures OccursAt(OLD + r, 0) && Replace(OLD + r, 0) == NEW + r
  {
    assert (OLD + r)[..0] == [] && (OLD + r)[7..] == r;
  }

  lemma NoneLater(x: string, q: nat)
    requires |x| > 0 && x[0] != 'a' && forall i :: 0 <= i < |x| ==> x[i] != '.'
    requires q > 0
    ensures !OccursAt(OLD + x + NEW, q)
  {
    var b := OLD + x + NEW;
    if q < 7 {
      assert b[q] == OLD[q] && b[7] == x[0];
    } else if q < 7 + |x| {
      assert b[q] == x[q - 7];
    } else if q + 7 <= |b| {
      var j := q - 7 - |x|;
      assert b[q] == NEW[j] && b[q + 6] == NEW[j + 6];
    }
  }

  lemma BothOccurOnce(x: string)
    requires |x| > 0 && x[0] != 'a' && forall i :: 0 <= i < |x| ==> x[i] != '.'
    ensures AtMostOnce(OLD + x + NEW) && AtMostOnce(NEW + x + OLD)
  {
    forall q: nat | q > 0
      ensures !OccursAt(OLD + x + NEW, q)
    {
      NoneLater(x, q);
    }
    forall q: nat | q < 21 + |x|
      ensures !OccursAt(NEW + x + OLD, q)
    {
      NoneEarlier(x, q);
    }
  }

  /** Distinct sources can share a target, even with one occurrence each. */
  lemma SourcesMayCollide(x: string)
    requires |x| > 0 && x[0] != 'a' && forall i :: 0 <= i < |x| ==> x[i] != '.'
    ensures OLD + x + NEW != NEW + x + OLD && Final(OLD + x + NEW) == Final(NEW + x + OLD)
    ensures AtMostOnce(OLD + x + NEW) && AtMostOnce(NEW + x + OLD)
  {
    hide AtMostOnce, Final;
    BothOccurOnce(x);
    assert (OLD + x + NEW)[6] != (NEW + x + OLD)[6];
    OldFirst(x);
    OldLast(x);
  }

  lemma OldFirst(x: string)
    ensures Final(OLD + x + NEW) == NEW + x + NEW
  {
    hide FindFrom, OccursAt, Replace;
    assert OLD + x + NEW == OLD + (x + NEW);
    StartsWithOld(x + NEW);
    FirstIsFound(OLD + x + NEW, 0);
    assert NEW + (x + NEW) == NEW + x + NEW;
  }

  lemma OldLast(x: string)
    requires |x| > 0 && x[0] != 'a' && forall i :: 0 <= i < |x| ==> x[i] != '.'
    ensures Final(NEW + x + OLD) == NEW + x + NEW
  {
    hide FindFrom, OccursAt, Replace;
    EndsInOld(NEW + x);
    forall q: nat | q < |NEW + x|
      ensures !OccursAt(NEW + x + OLD, q)
    {
      NoneEarlier(x, q);
    }
    FirstIsFound(NEW + x + OLD, |NEW + x|);
  }

  /** One key copied to its new name and deleted. */
  function Renamed(db: Events, key: string): Events {
    if key in db && Contains(key) then db[Final(key) := db[key]] - {key} else db
  }

  /** The keys of a scan renamed one after the other. */
  function RenamedAll(db: Events, keys: seq<string>): Events {
    if keys == [] then db else Renamed(RenamedAll(db, keys[..|keys| - 1]), keys[|keys| - 1])
  }

  ghost predicate Enumerates(keys: seq<string>, all: set<string>) {
    && (forall k :: k in keys <==> k in all)
    && forall i, j :: 0 <= i < j < |keys| ==> keys[i] != keys[j]
  }

  /** After n keys of a scan: the other keys still stand, and every key is a target or an old key that has
      nothing to rename or is still ahead. */
  ghost predicate Scanned(db: Events, keys: seq<string>, n: nat, now: Events)
    requires n <= |keys|
  {
    && StillListed(now, keys, n)
    && (forall k :: k in now ==> IsTarget(keys, n, k) || (k in db && (Contains(k) ==> k in keys[n..])))
  }

  ghost predicate IsTarget(keys: seq<string>, n: nat, k: string)
    requires n <= |keys|
  {
    exists i :: 0 <= i < n && Contains(keys[i]) && k == Final(keys[i])
  }

  lemma ScannedStep(db: Events, keys: seq<string>, n: nat, now: Events)
    requires Enumerates(keys, db.Keys) && n < |keys| && Scanned(db, keys, n, now)
    ensures Scanned(db, keys, n + 1, Renamed(now, keys[n]))
  {
    hide Final, Contains, Enumerates, StillListed, IsTarget, Renamed;
    ListedStep(now, keys, n, db.Keys);
    forall k | k in Renamed(now, keys[n])
      ensures IsTarget(keys, n + 1, k) || (k in db && (Contains(k) ==> k in keys[n + 1..]))
    {
      NewOrKept(db, keys, n, now, k);
    }
  }

  lemma NewOrKept(db: Events, keys: seq<string>, n: nat, now: Events, k: string)
    requires n < |keys| && keys[n] in now && k in Renamed(now, keys[n])
    requires k in now ==> IsTarget(keys, n, k) || (k in db && (Contains(k) ==> k in keys[n..]))
    ensures IsTarget(keys, n + 1, k) || (k in db && (Contains(k) ==> k in keys[n + 1..]))
  {
    hide Final, Contains;
    assert keys[n..] == [keys[n]] + keys[n + 1..];
    if k in now && IsTarget(keys, n, k) {
      var i :| 0 <= i < n && Contains(keys[i]) && k == Final(keys[i]);
      assert IsTarget(keys, n + 1, k);
    }
  }

  lemma {:induction false} ScannedAll(db: Events, keys: seq<string>, n: nat)
    requires Enumerates(keys, db.Keys) && n <= |keys|
    ensures Scanned(db, keys, n, RenamedAll(db, keys[..n]))
  {
    hide Scanned, Renamed;
    if n == 0 {
      ScannedNone(db, keys);
    } else {
      ScannedAll(db, keys, n - 1);
      ScannedStep(db, keys, n - 1, RenamedAll(db, keys[..n - 1]));
      RenamedAllNext(db, keys, n - 1);
    }
  }

  lemma ScannedNone(db: Events, keys: seq<string>)
    requires Enumerates(keys, db.Keys)
    ensures Scanned(db, keys, 0, RenamedAll(db, keys[..0]))
  {
    hide Contains, Final;
    assert keys[0..] == keys;
  }

  /** Nothing is left for a second run to rename. */
  ghost predicate AllSettled(db: Events) {
    forall k :: k in db ==> !Contains(k)
  }

  lemma OldIsTarget(db: Events, keys: seq<string>, now: Events, k: string)
    requires Enumerates(keys, db.Keys) && Scanned(db, keys, |keys|, now) && k in now && Contains(k)
    ensures exists source :: source in db && k == Final(source)
  {
    hide Contains, Final;
    assert keys[|keys|..] == [];
    var i :| 0 <= i < |keys| && Contains(keys[i]) && k == Final(keys[i]);
    assert keys[i] in db;
  }

  lemma OnceIsSettled(db: Events, keys: seq<string>)
    requires Renamable(db) && Enumerates(keys, db.Keys)
    ensures AllSettled(RenamedAll(db, keys))
  {
    hide Contains, Final, AtMostOnce, RenamedAll, Enumerates, Scanned;
    ScannedAll(db, keys, |keys|);
    assert keys[..|keys|] == keys;
    var now := RenamedAll(db, keys);
    forall k | k in now
      ensures !Contains(k)
    {
      if Contains(k) {
        OldIsTarget(db, keys, now, k);
        var source :| source in db && k == Final(source);
        SettledIff(source);
      }
    }
  }

  /** The keys in some order. */
  ghost function Listing(all: set<string>): (keys: seq<string>)
    ensures Enumerates(keys, all)
  {
    if all == {} then []
    else
      var k :| k in all;
      Listing(all - {k}) + [k]
  }

  /** A key that is scanned last leaves its target behind. */
  lemma LastLeavesTarget(db: Events, keys: seq<string>, k: string)
    requires Enumerates(keys + [k], db.Keys) && Contains(k)
    ensures Final(k) in RenamedAll(db, keys + [k])
  {
    hide Contains, Final, IsTarget, Enumerates, RenamedAll;
    var all := keys + [k];
    RenamedLonger(k);
    ScannedAll(db, all, |keys|);
    RenamedAllNext(db, all, |keys|);
    assert all[..|keys| + 1] == all && all[|keys|] == k;
  }

  lemma OnlyRenamedTwice(k: string)
    requires !AtMostOnce(k)
    ensures Contains(k) && Contains(Final(k))
  {
    SettledIff(k);
  }

  /** A completed migration leaves nothing for a second run, whatever order it scans the keys in, exactly
      when every key held the old text at most once. */
  lemma RerunHasNothingToDoIff(db: Events)
    ensures (forall keys :: Enumerates(keys, db.Keys) ==> AllSettled(RenamedAll(db, keys))) <==> Renamable(db)
  {
    hide Contains, Final, AtMostOnce, RenamedAll;
    if Renamable(db) {
      forall keys | Enumerates(keys, db.Keys)
        ensures AllSettled(RenamedAll(db, keys))
      {
        OnceIsSettled(db, keys);
      }
    } else {
      var k :| k in db && !AtMostOnce(k);
      var keys := Listing(db.Keys - {k});
      assert Enumerates(keys + [k], db.Keys);
      OnlyRenamedTwice(k);
      LastLeavesTarget(db, keys, k);
    }
  }

  // with target names that are free, in any one order

  /** No unrelated key stands at a target name. */
  ghost predicate TargetsFree(db: Events) {
    forall k :: k in db && Contains(k) ==> Final(k) !in db
  }

  lemma {:induction false} TargetsStay(db: Events, keys: seq<string>, n: nat, i: nat)
    requires TargetsFree(db) && Enumerates(keys, db.Keys) && i < n <= |keys| && Contains(keys[i])
    ensures Final(keys[i]) in RenamedAll(db, keys[..n])
  {
    hide Final, Contains, TargetsFree, Enumerates, Renamed, RenamedAll, IsTarget;
    ScannedAll(db, keys, n - 1);
    RenamedAllNext(db, keys, n - 1);
    if i < n - 1 {
      TargetsStay(db, keys, n - 1, i);
    }
    TargetKept(db, keys, n - 1, RenamedAll(db, keys[..n - 1]), i);
  }

  lemma TargetKept(db: Events, keys: seq<string>, n: nat, now: Events, i: nat)
    requires TargetsFree(db) && Enumerates(keys, db.Keys) && i <= n < |keys| && keys[n] in now && Contains(keys[i])
    requires i < n ==> Final(keys[i]) in now
    ensures Final(keys[i]) in Renamed(now, keys[n])
  {
    hide Final, Contains;
    assert keys[i] in db && keys[n] in db;
  }

  /** If no unrelated key stands at a target name, the same holds of each single scan order. */
  lemma SettledInEachOrderIff(db: Events, keys: seq<string>)
    requires TargetsFree(db) && Enumerates(keys, db.Keys)
    ensures AllSettled(RenamedAll(db, keys)) <==> Renamable(db)
  {
    hide Contains, Final, AtMostOnce, RenamedAll, TargetsFree;
    if Renamable(db) {
      OnceIsSettled(db, keys);
    } else {
      var k :| k in db && !AtMostOnce(k);
      var i :| 0 <= i < |keys| && keys[i] == k;
      OnlyRenamedTwice(k);
      TargetsStay(db, keys, |keys|, i);
      assert keys[..|keys|] == keys;
    }
  }

  // ----- the code -----

  class Database {
    var events: Events
    var version: Option<string>

    constructor (events: Events, version: Option<string>)
      ensures this.events == events && this.version == version
    {
      this.events, this.version := events, version;
    }

    method ScanKeys() returns (keys: seq<string>)
      ensures Enumerates(keys, events.Keys)
    {
      var left := events.Keys;
      keys := [];
      while left != {}
        invariant left <= events.Keys
        invariant forall k :: k in keys <==> k in events && k !in left
        invariant forall i, j :: 0 <= i < j < |keys| ==> keys[i] != keys[j]
        decreases left
      {
        var k :| k in left;
        left := left - {k};
        keys := keys + [k];
      }
    }

    /** The loop body of `migrateV1V2`: copy the value to the new key, then delete the old one, as far
        as the remaining writes allow. */
    method MigrateKey(key: string, budget: nat, ghost goal: Events) returns (alive: bool, spent: nat)
      requires key in events
      modifies this`events
      ensures alive ==> events == Renamed(old(events), key)
      ensures !alive ==> events == old(events) || events == old(events)[Final(key) := old(events)[key]]
      ensures spent <= budget && spent <= 2 && (budget >= 2 ==> alive)
      ensures old(Renamable(events)) ==>
                && Renamable(events) && TargetNames(events) == old(TargetNames(events))
                && (old(Midway(goal, events)) ==> Midway(goal, events))
                && (alive ==> forall k :: k in events && Contains(k) ==> k in old(events) && k != key)
    {
      hide Final, AtMostOnce, Contains, FindFrom, Midway, TargetNames, Renamable;
      RenamableKey(events, key);
      RenamedLonger(key);
      FinalIs(key);
      var pos := FindFrom(key, 0);
      if pos.None? {
        return true, 0;
      }
      if budget == 0 {
        return false, 0;
      }
      ghost var was := Renamable(events);
      if was {
        CopyKeeps(goal, events, key);
      }
      events := events[Replace(key, pos.value) := events[key]];
      if budget == 1 {
        return false, 1;
      }
      if was {
        DropKeeps(goal, events, key);
      }
      events := events - {key};
      return true, 2;
    }

    /** `migrateV1V2` in a process that dies after `budget` database writes, on any map. If it completes, all
        keys were renamed one after the other in the order of the scan. On a map whose keys hold the old text
        at most once: wherever it dies the map is still midway to its goal; if it completes, exactly the
        target names are left, the goal is reached, and the number of keys is kept exactly when the
        targets are distinct. */
    method MigrateV1V2(budget: nat, ghost goal: Events) returns (done: bool, spent: nat, ghost order: seq<string>)
      modifies this`events
      ensures spent <= budget && (budget >= 2 * |old(events)| ==> done)
      ensures Enumerates(order, old(events).Keys) && (done ==> events == RenamedAll(old(events), order))
      ensures old(Renamable(events)) ==>
                && Renamable(events) && TargetNames(events) == old(TargetNames(events))
                && (old(Midway(goal, events)) ==> Midway(goal, events))
                && (done && old(Midway(goal, events)) ==> events == goal)
                && (done ==> events.Keys == old(TargetNames(events)))
                && (done ==> (|events| == |old(events)| <==> DistinctTargets(old(events))))
    {
      hide Contains, Midway, Renamable, TargetNames, DistinctTargets, Renamed, RenamedAll, Enumerates, StillListed, RestIsOld;
      KeysKeptIffDistinct(events);
      var keys := ScanKeys();
      order := keys;
      KeyCount(keys, events.Keys);
      assert |events.Keys| == |events|;
      ghost var start, once := events, Renamable(events);
      RenamedNone(start, keys);
      AllListed(start, keys);
      spent := 0;
      for i := 0 to |keys|
        invariant once ==> Renamable(events) && TargetNames(events) == TargetNames(start)
        invariant once && Midway(goal, start) ==> Midway(goal, events)
        invariant once ==> RestIsOld(events, keys, i)
        invariant spent <= budget && spent <= 2 * i
        invariant events == RenamedAll(start, keys[..i])
        invariant StillListed(events, keys, i)
      {
        RenamedAllNext(start, keys, i);
        ListedStep(events, keys, i, start.Keys);
        ghost var before := events;
        var alive, used := MigrateKey(keys[i], budget - spent, goal);
        spent := spent + used;
        if !alive {
          return false, spent, order;
        }
        if once {
          OldStep(before, events, keys, i);
        }
      }
      assert keys[..|keys|] == keys;
      if once {
        NothingOld(events, keys);
        Finished(goal, events);
      }
      assert |events.Keys| == |events|;
      done := true;
    }

    /** Any number of runs that die anywhere, followed by one that completes, give the same map as
        one uninterrupted run, and no value is lost. */
    method MigrateThroughCrashes(budgets: seq<nat>)
      requires Renamable(events) && DistinctTargets(events)
      modifies this`events
      ensures events == Migrated(old(events))
    {
      ghost var goal := Migrated(events);
      StartIsMidway(events);
      for i := 0 to |budgets|
        invariant Renamable(events) && Midway(goal, events)
      {
        var _, _, _ := MigrateV1V2(budgets[i], goal);
      }
      var done, _, _ := MigrateV1V2(2 * |events|, goal);
    }

    /** `upgradeDatabase`, given what the version 0 migration reports. It terminates for every stored
        version, and succeeds exactly when the version is readable and either current already or
        an earlier one the code knows how to leave. */
    method UpgradeDatabase(toVersion: int, firstOk: bool, ghost goal: Events) returns (ok: bool)
      modifies this
      ensures var stored := StoredVersion(old(version));
              ok <==> stored.Some? &&
                      (stored.value == toVersion ||
                       (0 <= stored.value < toVersion <= 2 && (stored.value == 0 ==> firstOk)))
      ensures var stored := StoredVersion(old(version));
              if stored.None? || stored.value == toVersion || !(0 <= stored.value <= 1) || (stored.value == 0 && !firstOk)
              then version == old(version)
              else StoredVersion(version) == Some(if ok then toVersion else 2)
      ensures old(Midway(goal, events)) ==>
                Midway(goal, events) &&
                (ok && StoredVersion(old(version)).value <= 1 && toVersion == 2 ==> events == goal)
    {
      hide StoredVersion, ToString, Midway, Renamable, TargetNames, DistinctTargets, RenamedAll, Enumerates;
      ghost var midway := Midway(goal, events);
      MidwayRenamable(goal, events);
      var stored := StoredVersion(version);
      if stored.None? {
        return false;
      }
      var dbVersion := stored.value;
      ghost var from := dbVersion;
      while dbVersion != toVersion
        invariant midway ==> Renamable(events) && Midway(goal, events)
        invariant from <= dbVersion && (dbVersion == from || (0 <= from && dbVersion <= 2))
        invariant !(from <= toVersion < dbVersion) && (from == 0 && dbVersion > 0 ==> firstOk)
        invariant if dbVersion == from then version == old(version) else StoredVersion(version) == Some(dbVersion)
        invariant midway && from <= 1 && dbVersion == 2 ==> events == goal
        decreases 2 - dbVersion
      {
        var migrated := false;
        if dbVersion == 0 {
          migrated := firstOk;
        } else if dbVersion == 1 {
          var done, _, _ := MigrateV1V2(2 * |events|, goal);
          migrated := done;
        }
        if !migrated {
          return false;
        }
        VersionRoundTrip(dbVersion + 1);
        version := Some(ToString(dbVersion + 1));
        dbVersion := dbVersion + 1;
      }
      return true;
    }
  }

  /** The version on disk: zero when the key is missing, None when it is no number of type int. */
  function StoredVersion(version: Option<string>): Option<int> {
    match version
    case None => Some(0)
    case Some(text) =>
      var v := TryToLongLong(text);
      if v.Some? && -0x8000_0000 <= v.value < 0x8000_0000 then v else None
  }

  /** A missing version is zero; a text without a number, and a number too large for an int, are refused. */
  lemma OtherVersions(n: nat)
    requires n >= 0x8000_0000
    ensures StoredVersion(None) == Some(0) && StoredVersion(Some("x")) == None && StoredVersion(Some("")) == None
    ensures StoredVersion(Some(ToString(n))) == None
  {
    hide ToString;
    if n < LLONG_BOUND {
      NumberRoundTrip(n);
    } else {
      HugeNumberIsRefused(n);
    }
  }

  lemma VersionRoundTrip(v: nat)
    requires v < 0x8000_0000
    ensures StoredVersion(Some(ToString(v))) == Some(v)
  {
    NumberRoundTrip(v);
  }

  lemma MidwayRenamable(goal: Events, db: Events)
    ensures Midway(goal, db) ==> Renamable(db)
  {
  }

  lemma RenamableKey(db: Events, key: string)
    requires key in db
    ensures Renamable(db) ==> !Contains(Final(key))
  {
    if Renamable(db) {
      FinalIsSettled(key);
    }
  }

  lemma RenamedNone(db: Events, keys: seq<string>)
    ensures RenamedAll(db, keys[..0]) == db
  {
  }

  lemma RenamedAllNext(db: Events, keys: seq<string>, i: nat)
    requires i < |keys|
    ensures RenamedAll(db, keys[..i + 1]) == Renamed(RenamedAll(db, keys[..i]), keys[i])
  {
    assert keys[..i + 1][..i] == keys[..i];
  }

  ghost predicate StillListed(db: Events, keys: seq<string>, i: nat) {
    forall j :: i <= j < |keys| ==> keys[j] in db
  }

  /** Keys with the old text are all still ahead of the scan. */
  ghost predicate RestIsOld(db: Events, keys: seq<string>, i: nat)
    requires i <= |keys|
  {
    forall k :: k in db && Contains(k) ==> k in keys[i..]
  }

  lemma AllListed(db: Events, keys: seq<string>)
    requires Enumerates(keys, db.Keys)
    ensures StillListed(db, keys, 0) && RestIsOld(db, keys, 0)
  {
    assert keys[0..] == keys;
  }

  lemma ListedStep(db: Events, keys: seq<string>, i: nat, all: set<string>)
    requires Enumerates(keys, all) && i < |keys| && StillListed(db, keys, i)
    ensures keys[i] in db && StillListed(Renamed(db, keys[i]), keys, i + 1)
  {
    hide Final, Contains;
  }

  lemma OldStep(db: Events, after: Events, keys: seq<string>, i: nat)
    requires i < |keys| && RestIsOld(db, keys, i)
    requires forall k :: k in after && Contains(k) ==> k in db && k != keys[i]
    ensures RestIsOld(after, keys, i + 1)
  {
    hide Contains;
    assert keys[i..] == [keys[i]] + keys[i + 1..];
  }

  lemma NothingOld(db: Events, keys: seq<string>)
    requires RestIsOld(db, keys, |keys|)
    ensures forall k :: k in db ==> !Contains(k)
  {
    hide Contains;
    assert keys[|keys|..] == [];
  }

  lemma FinalIs(s: string)
    ensures FindFrom(s, 0).Some? ==> OccursAt(s, FindFrom(s, 0).value) && Final(s) == Replace(s, FindFrom(s, 0).value)
    ensures FindFrom(s, 0).Some? <==> Contains(s)
  {
  }

  lemma {:induction false} KeyCount(keys: seq<string>, all: set<string>)
    requires Enumerates(keys, all)
    ensures |keys| == |all|
  {
    if keys == [] {
      assert all == {};
    } else {
      var init, last := keys[..|keys| - 1], keys[|keys| - 1];
      assert keys == init + [last] && last !in init;
      KeyCount(init, all - {last});
    }
  }
}
