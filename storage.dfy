/**
 * The local leaderboard (src/utils/storage.ts) with the device storage and
 * JSON encoding taken away: the list logic of `saveScore` (keep-best upsert
 * by username, then a descending sort by score), `clearUserScore` and the
 * `hasUsername` check.
 */
module Storage {
  import opened Wrappers
  import opened Seqs

  /** One row of the leaderboard; `score` is the survival time in milliseconds. */
  datatype LeaderboardEntry = LeaderboardEntry(username: string, score: int, date: string)

  /** Non-increasing by score. */
  predicate Sorted(s: seq<LeaderboardEntry>)
  {
    forall i, j :: 0 <= i < j < |s| ==> s[i].score >= s[j].score
  }

  /** No username appears twice. */
  predicate UniqueUsernames(s: seq<LeaderboardEntry>)
  {
    forall i, j :: 0 <= i < j < |s| ==> s[i].username != s[j].username
  }

  /** Some entry belongs to `username`. */
  predicate HasEntryFor(s: seq<LeaderboardEntry>, username: string)
  {
    exists i :: 0 <= i < |s| && s[i].username == username
  }

  function Max(a: int, b: int): int
  {
    if a >= b then a else b
  }

  /** `findIndex(entry => entry.username === username)`, with `None` for -1. */
  function FirstIndexOf(s: seq<LeaderboardEntry>, username: string): (r: Option<nat>)
    ensures r.None? <==> !HasEntryFor(s, username)
    ensures r.Some? ==> r.value < |s| && s[r.value].username == username
    ensures r.Some? ==> forall j :: 0 <= j < r.value ==> s[j].username != username
  {
    if s == [] then None
    else if s[0].username == username then Some(0)
    else
      match FirstIndexOf(s[1..], username)
      case None => assert forall i :: 1 <= i < |s| ==> s[i] == s[1..][i - 1]; None
      case Some(i) => Some(i + 1)
  }

  /**
   * The update step of `saveScore` before the sort: a new user's entry is
   * appended; an existing user's first entry is replaced only when the new
   * score is strictly higher.
   */
  function Upsert(s: seq<LeaderboardEntry>, username: string, score: int, date: string): seq<LeaderboardEntry>
  {
    var entry := LeaderboardEntry(username, score, date);
    match FirstIndexOf(s, username)
    case None => s + [entry]
    case Some(i) => if score > s[i].score then s[i := entry] else s
  }

  /**
   * Inserts `x` into a list sorted by score, before the first entry whose
   * score is not higher than `x`'s.
   */
  function Insert(x: LeaderboardEntry, s: seq<LeaderboardEntry>): seq<LeaderboardEntry>
  {
    if s == [] || s[0].score <= x.score then [x] + s
    else [s[0]] + Insert(x, s[1..])
  }

  /**
   * `sort((a, b) => b.score - a.score)`: highest score first. The engine's
   * sort is stable, so entries with equal scores keep their relative order;
   * an insertion sort has the same result.
   */
  function SortByScore(s: seq<LeaderboardEntry>): seq<LeaderboardEntry>
  {
    if s == [] then [] else Insert(s[0], SortByScore(s[1..]))
  }

  /** The list `saveScore` writes back. */
  function SaveScoreList(s: seq<LeaderboardEntry>, username: string, score: int, date: string): seq<LeaderboardEntry>
  {
    SortByScore(Upsert(s, username, score, date))
  }

  /** `clearUserScore`: every entry of `username` removed, the rest in order. */
  function WithoutUser(s: seq<LeaderboardEntry>, username: string): (r: seq<LeaderboardEntry>)
    ensures !HasEntryFor(r, username)
    ensures forall e :: e in s && e.username != username ==> e in r
    ensures forall e :: e in r ==> e in s
  {
    Filter(s, (e: LeaderboardEntry) => e.username != username)
  }

  /** The entries whose score is `k`, in their order in `s`. */
  function WithScore(s: seq<LeaderboardEntry>, k: int): seq<LeaderboardEntry>
  {
    if s == [] then [] else (if s[0].score == k then [s[0]] else []) + WithScore(s[1..], k)
  }

  // ---------------------------------------------------------------------
  // Upsert

  /** A user without an entry is appended at the end. */
  lemma UpsertAbsent(s: seq<LeaderboardEntry>, username: string, score: int, date: string)
    requires !HasEntryFor(s, username)
    ensures Upsert(s, username, score, date) == s + [LeaderboardEntry(username, score, date)]
    ensures |Upsert(s, username, score, date)| == |s| + 1
  {
  }

  /**
   * For a user with an entry, only the first such entry can change, and it
   * changes only for a strictly higher score; the length never changes.
   */
  lemma UpsertPresent(s: seq<LeaderboardEntry>, username: string, score: int, date: string, i: nat)
    requires FirstIndexOf(s, username) == Some(i)
    ensures var r := Upsert(s, username, score, date);
      |r| == |s|
      && (score > s[i].score ==> r[i] == LeaderboardEntry(username, score, date))
      && (score <= s[i].score ==> r == s)
      && (forall j :: 0 <= j < |s| && j != i ==> r[j] == s[j])
  {
  }

  /** The user's entry at the first matching index ends with the better of the two scores. */
  lemma UpsertKeepsBest(s: seq<LeaderboardEntry>, username: string, score: int, date: string, i: nat)
    requires FirstIndexOf(s, username) == Some(i)
    ensures Upsert(s, username, score, date)[i].username == username
    ensures Upsert(s, username, score, date)[i].score == Max(s[i].score, score)
  {
  }

  /** Upsert changes the multiset of entries by at most one removal and one addition. */
  lemma UpsertMultiset(s: seq<LeaderboardEntry>, username: string, score: int, date: string)
    ensures var entry := LeaderboardEntry(username, score, date);
      var r := Upsert(s, username, score, date);
      match FirstIndexOf(s, username)
      case None => multiset(r) == multiset(s) + multiset{entry}
      case Some(i) =>
        if score > s[i].score then multiset(r) == multiset(s) - multiset{s[i]} + multiset{entry}
        else multiset(r) == multiset(s)
  {
    var entry := LeaderboardEntry(username, score, date);
    match FirstIndexOf(s, username)
    case None =>
    case Some(i) =>
      if score > s[i].score {
        assert s == s[..i] + [s[i]] + s[i + 1..];
        assert s[i := entry] == s[..i] + [entry] + s[i + 1..];
      }
  }

  /** Usernames that were unique stay unique. */
  lemma UpsertKeepsUnique(s: seq<LeaderboardEntry>, username: string, score: int, date: string)
    requires UniqueUsernames(s)
    ensures UniqueUsernames(Upsert(s, username, score, date))
  {
  }

  /** Afterwards the user always has an entry. */
  lemma UpsertHasEntry(s: seq<LeaderboardEntry>, username: string, score: int, date: string)
    ensures HasEntryFor(Upsert(s, username, score, date), username)
  {
    var r := Upsert(s, username, score, date);
    match FirstIndexOf(s, username)
    case None => assert r[|s|].username == username;
    case Some(i) => assert r[i].username == username;
  }

  // ---------------------------------------------------------------------
  // Sorting

  /** Insertion adds exactly `x`. */
  lemma {:induction false} InsertMultiset(x: LeaderboardEntry, s: seq<LeaderboardEntry>)
    ensures multiset(Insert(x, s)) == multiset(s) + multiset{x}
  {
    if s != [] {
      assert s == [s[0]] + s[1..];
      if s[0].score > x.score {
        InsertMultiset(x, s[1..]);
      }
    }
  }

  /** Insertion keeps the list sorted. */
  lemma {:induction false} InsertSorted(x: LeaderboardEntry, s: seq<LeaderboardEntry>)
    requires Sorted(s)
    ensures Sorted(Insert(x, s))
  {
    if s != [] && s[0].score > x.score {
      InsertSorted(x, s[1..]);
      InsertMembers(x, s[1..]);
      var t := Insert(x, s[1..]);
      forall j | 0 <= j < |t| ensures s[0].score >= t[j].score {
        assert t[j] in t;
      }
    }
  }

  /** The result of the sort is sorted and a permutation of its input. */
  lemma {:induction false} SortByScoreCorrect(s: seq<LeaderboardEntry>)
    ensures Sorted(SortByScore(s))
    ensures multiset(SortByScore(s)) == multiset(s)
  {
    if s != [] {
      assert s == [s[0]] + s[1..];
      SortByScoreCorrect(s[1..]);
      InsertSorted(s[0], SortByScore(s[1..]));
      InsertMultiset(s[0], SortByScore(s[1..]));
    }
  }

  /** Selecting by score from a list with a given head. */
  lemma WithScoreCons(y: LeaderboardEntry, t: seq<LeaderboardEntry>, k: int)
    ensures WithScore([y] + t, k) == (if y.score == k then [y] else []) + WithScore(t, k)
  {
    assert ([y] + t)[1..] == t;
  }

  /**
   * Insertion puts `x` ahead of the entries with its own score: among
   * those, `x` comes first and the others keep their order.
   */
  lemma {:induction false} InsertStable(x: LeaderboardEntry, s: seq<LeaderboardEntry>, k: int)
    ensures WithScore(Insert(x, s), k) == (if x.score == k then [x] else []) + WithScore(s, k)
  {
    if s == [] || s[0].score <= x.score {
      WithScoreCons(x, s, k);
    } else {
      var t := Insert(x, s[1..]);
      InsertStable(x, s[1..], k);
      WithScoreCons(s[0], t, k);
      WithScoreCons(s[0], s[1..], k);
      assert [s[0]] + s[1..] == s;
    }
  }

  /** The sort is stable: the entries of any one score appear in their original order. */
  lemma {:induction false} SortByScoreStable(s: seq<LeaderboardEntry>, k: int)
    ensures WithScore(SortByScore(s), k) == WithScore(s, k)
  {
    if s != [] {
      SortByScoreStable(s[1..], k);
      InsertStable(s[0], SortByScore(s[1..]), k);
    }
  }

  /** Sorting a permutation cannot create duplicate usernames. */
  lemma {:induction false} SortByScoreKeepsUnique(s: seq<LeaderboardEntry>)
    requires UniqueUsernames(s)
    ensures UniqueUsernames(SortByScore(s))
  {
    if s != [] {
      var t := SortByScore(s[1..]);
      SortByScoreKeepsUnique(s[1..]);
      SortByScoreCorrect(s[1..]);
      forall e | e in t ensures e.username != s[0].username {
        assert e in multiset(s[1..]);
        var j :| 0 <= j < |s[1..]| && s[1..][j] == e;
        assert s[j + 1] == e;
      }
      InsertKeepsUnique(s[0], t);
    }
  }

  lemma {:induction false} InsertKeepsUnique(x: LeaderboardEntry, s: seq<LeaderboardEntry>)
    requires UniqueUsernames(s)
    requires forall e :: e in s ==> e.username != x.username
    ensures UniqueUsernames(Insert(x, s))
  {
    if s == [] || s[0].score <= x.score {
    } else {
      InsertKeepsUnique(x, s[1..]);
      var t := Insert(x, s[1..]);
      InsertMembers(x, s[1..]);
      forall j | 0 <= j < |t| ensures t[j].username != s[0].username {
        assert t[j] in t;
      }
    }
  }

  lemma {:induction false} InsertMembers(x: LeaderboardEntry, s: seq<LeaderboardEntry>)
    ensures forall e :: e in Insert(x, s) <==> e == x || e in s
  {
    if s == [] || s[0].score <= x.score {
    } else {
      InsertMembers(x, s[1..]);
    }
  }

  // ---------------------------------------------------------------------
  // saveScore as a whole

  /**
   * After `saveScore` the list is sorted, is a permutation of the updated
   * list, keeps usernames unique, and the user's only entry holds the better
   * of the old and the new score.
   */
  lemma SaveScoreCorrect(s: seq<LeaderboardEntry>, username: string, score: int, date: string)
    ensures Sorted(SaveScoreList(s, username, score, date))
    ensures multiset(SaveScoreList(s, username, score, date)) == multiset(Upsert(s, username, score, date))
    ensures HasEntryFor(SaveScoreList(s, username, score, date), username)
    ensures UniqueUsernames(s) ==> UniqueUsernames(SaveScoreList(s, username, score, date))
  {
    var u := Upsert(s, username, score, date);
    SortByScoreCorrect(u);
    UpsertHasEntry(s, username, score, date);
    var j :| 0 <= j < |u| && u[j].username == username;
    assert u[j] in multiset(SaveScoreList(s, username, score, date));
    if UniqueUsernames(s) {
      UpsertKeepsUnique(s, username, score, date);
      SortByScoreKeepsUnique(u);
    }
  }

  /** With unique usernames, the user's entry after `saveScore` scores the maximum of old and new. */
  lemma SaveScoreBest(s: seq<LeaderboardEntry>, username: string, score: int, date: string, e: LeaderboardEntry)
    requires UniqueUsernames(s)
    requires e in SaveScoreList(s, username, score, date) && e.username == username
    ensures FirstIndexOf(s, username).None? ==> e.score == score
    ensures FirstIndexOf(s, username).Some? ==> e.score == Max(s[FirstIndexOf(s, username).value].score, score)
  {
    var u := Upsert(s, username, score, date);
    SortByScoreCorrect(u);
    assert e in multiset(u);
    UpsertKeepsUnique(s, username, score, date);
    var k :| 0 <= k < |u| && u[k] == e;
    match FirstIndexOf(s, username)
    case None =>
      assert u == s + [LeaderboardEntry(username, score, date)];
      assert k == |s|;
    case Some(i) =>
      UpsertKeepsBest(s, username, score, date, i);
      assert k == i;
  }

  // ---------------------------------------------------------------------
  // clearUserScore

  /** Removing a user keeps a sorted list sorted. */
  lemma {:induction false} WithoutUserSorted(s: seq<LeaderboardEntry>, username: string)
    requires Sorted(s)
    ensures Sorted(WithoutUser(s, username))
  {
    if s != [] {
      var t := WithoutUser(s[1..], username);
      WithoutUserSorted(s[1..], username);
      assert WithoutUser(s, username) == (if s[0].username != username then [s[0]] else []) + t;
      if s[0].username != username {
        forall j | 0 <= j < |t| ensures s[0].score >= t[j].score {
          assert t[j] in s[1..];
        }
        SortedCons(s[0], t);
      }
    }
  }

  /** An entry scoring at least every entry of a sorted list can go in front of it. */
  lemma SortedCons(x: LeaderboardEntry, t: seq<LeaderboardEntry>)
    requires Sorted(t)
    requires forall j :: 0 <= j < |t| ==> x.score >= t[j].score
    ensures Sorted([x] + t)
  {
    forall i, j | 0 <= i < j < |[x] + t| ensures ([x] + t)[i].score >= ([x] + t)[j].score {
      if i > 0 {
        assert ([x] + t)[i] == t[i - 1];
      }
      assert ([x] + t)[j] == t[j - 1];
    }
  }

  /** Clearing a user who has no entry changes nothing; clearing twice is clearing once. */
  lemma WithoutUserIdempotent(s: seq<LeaderboardEntry>, username: string)
    ensures !HasEntryFor(s, username) ==> WithoutUser(s, username) == s
    ensures WithoutUser(WithoutUser(s, username), username) == WithoutUser(s, username)
  {
    FilterIdempotent(s, (e: LeaderboardEntry) => e.username != username);
    if !HasEntryFor(s, username) {
      FilterAllKept(s, (e: LeaderboardEntry) => e.username != username);
    }
  }

  // ---------------------------------------------------------------------
  // hasUsername

  /**
   * The characters `String.prototype.trim` strips: the ECMAScript
   * WhiteSpace and LineTerminator code points.
   */
  predicate IsTrimmed(c: char)
  {
    c == '\t' || c == '\n' || c == '\U{000B}' || c == '\U{000C}' || c == '\r' || c == ' '
    || c == '\U{00A0}' || c == '\U{1680}' || ('\U{2000}' <= c <= '\U{200A}')
    || c == '\U{2028}' || c == '\U{2029}' || c == '\U{202F}' || c == '\U{205F}'
    || c == '\U{3000}' || c == '\U{FEFF}'
  }

  /** Drops leading whitespace. */
  function TrimStart(s: string): (r: string)
    ensures |r| <= |s| && r == s[|s| - |r|..]
    ensures forall i :: 0 <= i < |s| - |r| ==> IsTrimmed(s[i])
    ensures r != [] ==> !IsTrimmed(r[0])
  {
    if s != [] && IsTrimmed(s[0]) then
      var r := TrimStart(s[1..]);
      assert s[1..][|s| - 1 - |r|..] == s[|s| - |r|..];
      r
    else s
  }

  /** Drops trailing whitespace. */
  function TrimEnd(s: string): (r: string)
    ensures |r| <= |s| && r == s[..|r|]
    ensures forall i :: |r| <= i < |s| ==> IsTrimmed(s[i])
    ensures r != [] ==> !IsTrimmed(r[|r| - 1])
  {
    if s != [] && IsTrimmed(s[|s| - 1]) then TrimEnd(s[..|s| - 1]) else s
  }

  /** `trim()`. */
  function Trim(s: string): string
  {
    TrimEnd(TrimStart(s))
  }

  /** `hasUsername`: a name is stored and is not blank. */
  predicate HasUsername(stored: Option<string>)
  {
    stored.Some? && Trim(stored.value) != ""
  }

  /** A string trims to nothing exactly when every character is whitespace. */
  lemma TrimEmptyIffBlank(s: string)
    ensures Trim(s) == "" <==> forall i :: 0 <= i < |s| ==> IsTrimmed(s[i])
  {
    var a := TrimStart(s);
    if a != [] {
      assert s[|s| - |a|] == a[0];
      TrimEndKeepsFirst(a);
    }
  }

  /** Trailing trimming cannot empty a string that starts with a non-whitespace character. */
  lemma TrimEndKeepsFirst(a: string)
    requires a != [] && !IsTrimmed(a[0])
    ensures TrimEnd(a) != []
  {
  }

  /** `hasUsername` holds iff a name is stored and has a non-whitespace character. */
  lemma HasUsernameIff(stored: Option<string>)
    ensures HasUsername(stored) <==> stored.Some? && exists i :: 0 <= i < |stored.value| && !IsTrimmed(stored.value[i])
  {
    if stored.Some? {
      TrimEmptyIffBlank(stored.value);
    }
  }

  // ---------------------------------------------------------------------
  // The stored list

  /** The leaderboard array that `saveScore` and `clearUserScore` rewrite. */
  class Leaderboard {
    var entries: seq<LeaderboardEntry>

    /** `getLeaderboard` with nothing stored yields the empty list. */
    constructor()
      ensures entries == []
    {
      entries := [];
    }

    /** `findIndex`: the index of the user's first entry, or -1. */
    method FindIndex(username: string) returns (index: int)
      ensures index == -1 <==> !HasEntryFor(entries, username)
      ensures index != -1 ==> 0 <= index && FirstIndexOf(entries, username) == Some(index as nat)
    {
      index := 0;
      while index < |entries|
        invariant 0 <= index <= |entries|
        invariant forall j :: 0 <= j < index ==> entries[j].username != username
      {
        if entries[index].username == username {
          FirstIndexIsFirst(entries, username, index);
          return;
        }
        index := index + 1;
      }
      index := -1;
    }

    /** `saveScore(username, score)` with the current time as `date`. */
    method SaveScore(username: string, score: int, date: string)
      modifies this
      ensures entries == SaveScoreList(old(entries), username, score, date)
    {
      var entry := LeaderboardEntry(username, score, date);
      var index := FindIndex(username);
      if index != -1 {
        if score > entries[index].score {
          entries := entries[index := entry];
        }
      } else {
        entries := entries + [entry];
      }
      entries := SortByScore(entries);
    }

    /** `clearUserScore(username)`. */
    method ClearUserScore(username: string)
      modifies this
      ensures entries == WithoutUser(old(entries), username)
    {
      entries := Filter(entries, (e: LeaderboardEntry) => e.username != username);
    }

    /** `clearLeaderboard`. */
    method ClearLeaderboard()
      modifies this
      ensures entries == []
    {
      entries := [];
    }
  }

  /** An index with the user's name and none before it is the one `findIndex` returns. */
  lemma {:induction false} FirstIndexIsFirst(s: seq<LeaderboardEntry>, username: string, i: nat)
    requires i < |s| && s[i].username == username
    requires forall j :: 0 <= j < i ==> s[j].username != username
    ensures FirstIndexOf(s, username) == Some(i)
  {
    if i > 0 {
      FirstIndexIsFirst(s[1..], username, i - 1);
    }
  }
}
