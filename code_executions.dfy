/**
 * The execution store: the entitlement gate and the append in saveExecution,
 * the per-user listing, and the usage statistics getUserStats derives from a
 * user's executions and starred snippets.
 */
module CodeExecutions {
  import opened Wrappers
  import opened Tables
  import opened CountMaps
  import Users

  /** The only language a user without Pro may run. */
  const FreeLanguage: string := "javascript"

  /** The window of `last24Hours`, in milliseconds. */
  const DayMillis: int := 24 * 60 * 60 * 1000

  /**
   * The entitlement gate of saveExecution: the request is refused when the
   * user is not Pro (a missing user document counts as not Pro) and the
   * language is not the free one.
   */
  predicate MayExecute(user: Option<User>, language: string) {
    !(!(user.Some? && user.value.isPro) && language != FreeLanguage)
  }

  /** The gate admits exactly Pro users and the free language. */
  lemma MayExecuteExactly(user: Option<User>, language: string)
    ensures MayExecute(user, language) <==> (user.Some? && user.value.isPro) || language == FreeLanguage
    ensures MayExecute(None, language) <==> language == FreeLanguage
  {
  }

  /** Every stored execution passed the gate against the user table as it stands now. */
  ghost predicate ExecutionsEntitled(users: seq<User>, executions: seq<Execution>) {
    forall e :: e in executions ==> MayExecute(FindUser(users, e.userId), e.language)
  }

  method SaveExecution(db: Database, identity: Option<Identity>, language: string, code: string,
                       output: Option<string>, error: Option<string>, now: int)
    returns (r: Outcome<Error>)
    requires db.Valid()
    modifies db
    ensures db.Valid()
    ensures identity.None? ==> r == Fail(NotAuthenticated) && unchanged(db)
    ensures identity.Some? && !MayExecute(FindUser(old(db.users), identity.value.subject), language) ==>
              r == Fail(ProSubscriptionRequired) && unchanged(db)
    ensures identity.Some? && MayExecute(FindUser(old(db.users), identity.value.subject), language) ==>
              && r == Pass
              && db.codeExecutions == old(db.codeExecutions) +
                   [Execution(old(db.nextId), now, identity.value.subject, language, code, output, error)]
              && db.nextId == old(db.nextId) + 1
    ensures db.users == old(db.users) && db.snippets == old(db.snippets)
    ensures db.snippetComments == old(db.snippetComments) && db.stars == old(db.stars)
    ensures ExecutionsEntitled(old(db.users), old(db.codeExecutions)) ==>
              ExecutionsEntitled(db.users, db.codeExecutions)
  {
    if identity.None? {
      return Fail(NotAuthenticated);
    }
    var user := FindUser(db.users, identity.value.subject);
    if !(user.Some? && user.value.isPro) && language != FreeLanguage {
      return Fail(ProSubscriptionRequired);
    }
    db.codeExecutions := db.codeExecutions +
      [Execution(db.nextId, now, identity.value.subject, language, code, output, error)];
    db.nextId := db.nextId + 1;
    r := Pass;
  }

  /** Signing a new user in keeps every stored execution entitled. */
  lemma SyncKeepsEntitled(users: seq<User>, executions: seq<Execution>,
                          id: Id, now: int, userId: string, email: string, name: string)
    requires ExecutionsEntitled(users, executions)
    ensures ExecutionsEntitled(Users.SyncedUsers(users, id, now, userId, email, name), executions)
  {
    var u := Users.NewUser(id, now, userId, email, name);
    if FindUser(users, userId).None? {
      forall e | e in executions
        ensures MayExecute(FindUser(users + [u], e.userId), e.language)
      {
        Users.FindUserAfterAppend(users, u, e.userId);
      }
    }
  }

  /** An upgrade to Pro keeps every stored execution entitled: it only ever grants. */
  lemma UpgradeKeepsEntitled(users: seq<User>, executions: seq<Execution>, i: nat,
                             now: int, customerId: string, orderId: string)
    requires UniqueUserIds(users) && i < |users|
    requires ExecutionsEntitled(users, executions)
    ensures ExecutionsEntitled(users[i := Users.Upgraded(users[i], now, customerId, orderId)], executions)
  {
    var users' := users[i := Users.Upgraded(users[i], now, customerId, orderId)];
    forall e | e in executions
      ensures MayExecute(FindUser(users', e.userId), e.language)
    {
      Users.UpgradeLookup(users, i, now, customerId, orderId, e.userId);
    }
  }

  /** The executions of one user, in insertion order: the `by_user_id` query. */
  function ExecutionsOf(executions: seq<Execution>, userId: string): (r: seq<Execution>)
    ensures forall e :: e in r <==> e in executions && e.userId == userId
    ensures |r| <= |executions|
  {
    if executions == [] then []
    else if executions[0].userId != userId then ExecutionsOf(executions[1..], userId)
    else [executions[0]] + ExecutionsOf(executions[1..], userId)
  }

  /** Filtering keeps the table's order, so ids still ascend. */
  lemma {:induction false} ExecutionsOfAscending(executions: seq<Execution>, userId: string)
    requires ExecutionIdsAscending(executions)
    ensures ExecutionIdsAscending(ExecutionsOf(executions, userId))
  {
    if executions != [] {
      var rest := executions[1..];
      ExecutionsOfAscending(rest, userId);
      var r' := ExecutionsOf(rest, userId);
      if executions[0].userId == userId {
        forall x | x in r' ensures executions[0].id < x.id {
          var k :| 0 <= k < |rest| && rest[k] == x;
          assert executions[k + 1] == x;
        }
        ConsExecutionsAscending(executions[0], r');
      }
    }
  }

  lemma ConsExecutionsAscending(x: Execution, xs: seq<Execution>)
    requires ExecutionIdsAscending(xs)
    requires forall y :: y in xs ==> x.id < y.id
    ensures ExecutionIdsAscending([x] + xs)
  {
    var r := [x] + xs;
    forall i, j | 0 <= i < j < |r| ensures r[i].id < r[j].id {
      assert r[j] == xs[j - 1];
      if i == 0 {
        assert xs[j - 1] in xs;
      } else {
        assert r[i] == xs[i - 1];
      }
    }
  }

  /**
   * getUserExecutions: the user's executions and no others, newest first;
   * pagination cuts this sequence into pages.
   */
  function GetUserExecutions(executions: seq<Execution>, userId: string): (r: seq<Execution>)
    ensures forall e :: e in r <==> e in executions && e.userId == userId
    ensures ExecutionIdsAscending(executions) ==>
              forall i, j :: 0 <= i < j < |r| ==> r[i].id > r[j].id
  {
    var mine := ExecutionsOf(executions, userId);
    var r := NewestFirst(mine);
    assert ExecutionIdsAscending(executions) ==> ExecutionIdsAscending(mine) by {
      if ExecutionIdsAscending(executions) { ExecutionsOfAscending(executions, userId); }
    }
    r
  }

  /** The `language` of each execution, in order. */
  function LanguagesOf(executions: seq<Execution>): (r: seq<string>)
    ensures |r| == |executions|
    ensures forall i :: 0 <= i < |executions| ==> r[i] == executions[i].language
  {
    if executions == [] then [] else [executions[0].language] + LanguagesOf(executions[1..])
  }

  /**
   * The languages counted for mostStarredLanguage: those of the starred
   * snippets that still exist, in star order, skipping an empty language.
   */
  function StarredLanguages(starred: seq<Snippet>): (r: seq<string>)
    ensures |r| <= |starred|
    ensures forall l :: l in r <==> l != "" && exists sn :: sn in starred && sn.language == l
  {
    if starred == [] then []
    else
      var rest := StarredLanguages(starred[1..]);
      assert forall sn :: sn in starred ==> sn == starred[0] || sn in starred[1..];
      (if starred[0].language != "" then [starred[0].language] else []) + rest
  }

  /** last24Hours: the executions created strictly after `now - DayMillis`. */
  function CountRecent(executions: seq<Execution>, now: int): (n: nat)
    ensures n <= |executions|
    ensures n == |executions| <==> forall e :: e in executions ==> e.creationTime > now - DayMillis
    ensures n == 0 <==> forall e :: e in executions ==> e.creationTime <= now - DayMillis
  {
    if executions == [] then 0
    else
      var rest := CountRecent(executions[1..], now);
      assert forall e :: e in executions ==> e == executions[0] || e in executions[1..];
      (if executions[0].creationTime > now - DayMillis then 1 else 0) + rest
  }

  /** Counting one more starred snippet appends its language unless that is empty. */
  lemma {:induction false} StarredLanguagesAppend(starred: seq<Snippet>, sn: Snippet)
    ensures StarredLanguages(starred + [sn]) ==
            StarredLanguages(starred) + (if sn.language != "" then [sn.language] else [])
  {
    if starred == [] {
      assert [] + [sn] == [sn] && [sn][1..] == [];
    } else {
      assert (starred + [sn])[1..] == starred[1..] + [sn];
      StarredLanguagesAppend(starred[1..], sn);
    }
  }

  /** The positions of the starred snippets whose language is `l`. */
  ghost function LanguageIndices(starred: seq<Snippet>, l: string): set<int> {
    set i | 0 <= i < |starred| && starred[i].language == l
  }

  /** Each non-empty language occurs once per starred snippet written in it; the empty language never. */
  lemma StarredLanguagesCounts(starred: seq<Snippet>)
    ensures forall l :: multiset(StarredLanguages(starred))[l] ==
              if l == "" then 0 else |LanguageIndices(starred, l)|
  {
    forall l ensures multiset(StarredLanguages(starred))[l] == if l == "" then 0 else |LanguageIndices(starred, l)| {
      StarredLanguagesCount(starred, l);
    }
  }

  lemma {:induction false} StarredLanguagesCount(starred: seq<Snippet>, l: string)
    ensures multiset(StarredLanguages(starred))[l] == if l == "" then 0 else |LanguageIndices(starred, l)|
  {
    if starred != [] {
      var init, last := starred[..|starred| - 1], starred[|starred| - 1];
      assert starred == init + [last];
      StarredLanguagesAppend(init, last);
      StarredLanguagesCount(init, l);
      LanguageIndicesAppend(init, last, l);
    }
  }

  lemma LanguageIndicesAppend(init: seq<Snippet>, last: Snippet, l: string)
    ensures |LanguageIndices(init + [last], l)| == |LanguageIndices(init, l)| + (if last.language == l then 1 else 0)
  {
    var starred := init + [last];
    forall k | 0 <= k < |init| ensures starred[k] == init[k] { }
    assert LanguageIndices(starred, l) == LanguageIndices(init, l) + (if last.language == l then {|init|} else {});
    assert |init| !in LanguageIndices(init, l);
  }

  lemma {:induction false} CountRecentAppend(executions: seq<Execution>, e: Execution, now: int)
    ensures CountRecent(executions + [e], now) ==
            CountRecent(executions, now) + (if e.creationTime > now - DayMillis then 1 else 0)
  {
    if executions == [] {
      assert [] + [e] == [e] && [e][1..] == [];
    } else {
      assert (executions + [e])[1..] == executions[1..] + [e];
      CountRecentAppend(executions[1..], e, now);
    }
  }

  /** The positions of the executions created within the day before `now`. */
  ghost function RecentIndices(executions: seq<Execution>, now: int): set<int> {
    set i | 0 <= i < |executions| && executions[i].creationTime > now - DayMillis
  }

  /** CountRecent counts exactly the executions of the last day. */
  lemma {:induction false} CountRecentCounts(executions: seq<Execution>, now: int)
    ensures CountRecent(executions, now) == |RecentIndices(executions, now)|
  {
    if executions != [] {
      var init, last := executions[..|executions| - 1], executions[|executions| - 1];
      assert executions == init + [last];
      CountRecentAppend(init, last, now);
      CountRecentCounts(init, now);
      RecentIndicesAppend(init, last, now);
    }
  }

  lemma RecentIndicesAppend(init: seq<Execution>, last: Execution, now: int)
    ensures |RecentIndices(init + [last], now)| ==
            |RecentIndices(init, now)| + (if last.creationTime > now - DayMillis then 1 else 0)
  {
    var executions := init + [last];
    forall k | 0 <= k < |init| ensures executions[k] == init[k] { }
    var recent := last.creationTime > now - DayMillis;
    assert RecentIndices(executions, now) == RecentIndices(init, now) + (if recent then {|init|} else {});
    assert |init| !in RecentIndices(init, now);
  }

  /** What getUserStats returns. */
  datatype UsageStats = UsageStats(
    totalExecutions: nat,
    languagesCount: nat,
    languages: seq<string>,
    last24Hours: nat,
    favoriteLanguage: string,
    languageStats: Counts,
    mostStarredLanguage: string)

  /**
   * getUserStats over the three tables it reads, with the clock reading
   * `now` as a parameter. What each field means is stated by the lemmas
   * below.
   */
  function GetUserStats(executions: seq<Execution>, stars: seq<Star>, snippets: seq<Snippet>,
                        userId: string, now: int): (r: UsageStats)
    ensures r.last24Hours <= r.totalExecutions
    ensures r.languagesCount == |r.languages|
  {
    var mine := ExecutionsOf(executions, userId);
    var languageStats := Tally(LanguagesOf(mine));
    UsageStats(
      |mine|,
      |Keys(languageStats)|,
      Keys(languageStats),
      CountRecent(mine, now),
      Favorite(languageStats),
      languageStats,
      MostCounted(Tally(StarredLanguages(ResolveStars(StarsOf(stars, userId), snippets)))))
  }

  /** The counts: one entry per language the user ran, summing to the number of executions. */
  lemma StatsCounts(executions: seq<Execution>, stars: seq<Star>, snippets: seq<Snippet>, userId: string, now: int)
    ensures var r := GetUserStats(executions, stars, snippets, userId, now);
            && r.totalExecutions == |ExecutionsOf(executions, userId)|
            && Sum(r.languageStats) == r.totalExecutions
            && DistinctKeys(r.languageStats) && r.languages == Keys(r.languageStats)
            && forall l :: Get(r.languageStats, l) == multiset(LanguagesOf(ExecutionsOf(executions, userId)))[l]
  {
    TallyCounts(LanguagesOf(ExecutionsOf(executions, userId)));
  }

  lemma {:induction false} ExecutionsOfAppend(executions: seq<Execution>, e: Execution, userId: string)
    ensures ExecutionsOf(executions + [e], userId) ==
            ExecutionsOf(executions, userId) + (if e.userId == userId then [e] else [])
  {
    if executions == [] {
      assert [] + [e] == [e] && [e][1..] == [];
    } else {
      assert (executions + [e])[1..] == executions[1..] + [e];
      ExecutionsOfAppend(executions[1..], e, userId);
    }
  }

  /** The positions of the user's executions created within the day before `now`. */
  ghost function MyRecentIndices(executions: seq<Execution>, userId: string, now: int): set<int> {
    set i | 0 <= i < |executions| && executions[i].userId == userId && executions[i].creationTime > now - DayMillis
  }

  /** last24Hours: the number of the user's executions created within the day before `now`. */
  lemma StatsRecent(executions: seq<Execution>, stars: seq<Star>, snippets: seq<Snippet>, userId: string, now: int)
    ensures GetUserStats(executions, stars, snippets, userId, now).last24Hours ==
            |MyRecentIndices(executions, userId, now)|
  {
    MyRecentCount(executions, userId, now);
  }

  lemma {:induction false} MyRecentCount(executions: seq<Execution>, userId: string, now: int)
    ensures CountRecent(ExecutionsOf(executions, userId), now) == |MyRecentIndices(executions, userId, now)|
  {
    if executions != [] {
      var init, last := executions[..|executions| - 1], executions[|executions| - 1];
      assert executions == init + [last];
      ExecutionsOfAppend(init, last, userId);
      if last.userId == userId {
        CountRecentAppend(ExecutionsOf(init, userId), last, now);
      } else {
        assert ExecutionsOf(executions, userId) == ExecutionsOf(init, userId);
      }
      MyRecentCount(init, userId, now);
      MyRecentIndicesAppend(init, last, userId, now);
    }
  }

  lemma MyRecentIndicesAppend(init: seq<Execution>, last: Execution, userId: string, now: int)
    ensures |MyRecentIndices(init + [last], userId, now)| ==
            |MyRecentIndices(init, userId, now)| +
            (if last.userId == userId && last.creationTime > now - DayMillis then 1 else 0)
  {
    var executions := init + [last];
    forall k | 0 <= k < |init| ensures executions[k] == init[k] { }
    var hit := last.userId == userId && last.creationTime > now - DayMillis;
    assert MyRecentIndices(executions, userId, now) ==
           MyRecentIndices(init, userId, now) + (if hit then {|init|} else {});
    assert |init| !in MyRecentIndices(init, userId, now);
  }

  /** The languages: exactly those of the user's executions, each once. */
  lemma StatsLanguages(executions: seq<Execution>, stars: seq<Star>, snippets: seq<Snippet>, userId: string, now: int)
    ensures var r := GetUserStats(executions, stars, snippets, userId, now);
            && (forall l :: l in r.languages <==> exists e :: e in executions && e.userId == userId && e.language == l)
            && r.languagesCount == |set e | e in ExecutionsOf(executions, userId) :: e.language|
  {
    var mine := ExecutionsOf(executions, userId);
    var langs := LanguagesOf(mine);
    var languageStats := Tally(langs);
    TallyCounts(langs);
    LanguagesOfMembers(mine);
    DistinctKeysCard(languageStats);
    assert (set k | k in Keys(languageStats)) == (set e | e in mine :: e.language);
  }

  /** The favourite: "N/A" without executions, otherwise a most-run language, the later one on a tie. */
  lemma StatsFavorite(executions: seq<Execution>, stars: seq<Star>, snippets: seq<Snippet>, userId: string, now: int)
    ensures var r := GetUserStats(executions, stars, snippets, userId, now);
            && (r.totalExecutions == 0 ==> r.favoriteLanguage == "N/A" && r.languagesCount == 0)
            && (r.totalExecutions > 0 ==>
                  exists i: nat :: IsLastMax(r.languageStats, i, |r.languageStats|) &&
                                   r.favoriteLanguage == r.languageStats[i].key)
  {
    var mine := ExecutionsOf(executions, userId);
    var langs := LanguagesOf(mine);
    var languageStats := Tally(langs);
    TallyCounts(langs);
    if |langs| > 0 {
      assert langs[0] in Keys(languageStats);
      FavoriteIsLastMax(languageStats);
    }
  }

  /** The most starred language: "N/A" without a counted star, otherwise the first most-starred one. */
  lemma StatsMostStarred(executions: seq<Execution>, stars: seq<Star>, snippets: seq<Snippet>, userId: string, now: int)
    ensures var r := GetUserStats(executions, stars, snippets, userId, now);
            var starred := Tally(StarredLanguages(ResolveStars(StarsOf(stars, userId), snippets)));
            && (starred == [] <==> forall sn :: sn in ResolveStars(StarsOf(stars, userId), snippets) ==> sn.language == "")
            && (starred == [] ==> r.mostStarredLanguage == "N/A")
            && (starred != [] ==> exists i: nat :: IsFirstMax(starred, i) && r.mostStarredLanguage == starred[i].key)
  {
    var resolved := ResolveStars(StarsOf(stars, userId), snippets);
    var starred := Tally(StarredLanguages(resolved));
    NothingStarredCounted(resolved);
    if starred != [] { MostCountedIsFirstMax(starred); }
  }

  /** The positions of the user's stars whose snippet still exists and is written in `l`. */
  ghost function MyStarsIn(stars: seq<Star>, snippets: seq<Snippet>, userId: string, l: string): set<int> {
    set i | 0 <= i < |stars| && stars[i].userId == userId &&
            GetSnippet(snippets, stars[i].snippetId).Some? &&
            GetSnippet(snippets, stars[i].snippetId).value.language == l
  }

  /**
   * The star counts behind mostStarredLanguage: a non-empty language is
   * counted once per star of the user on an existing snippet in it.
   */
  lemma StatsStarCounts(stars: seq<Star>, snippets: seq<Snippet>, userId: string)
    ensures var starred := Tally(StarredLanguages(ResolveStars(StarsOf(stars, userId), snippets)));
            forall l :: Get(starred, l) == if l == "" then 0 else |MyStarsIn(stars, snippets, userId, l)|
  {
    var langs := StarredLanguages(ResolveStars(StarsOf(stars, userId), snippets));
    TallyCounts(langs);
    forall l ensures multiset(langs)[l] == if l == "" then 0 else |MyStarsIn(stars, snippets, userId, l)| {
      MyStarsCount(stars, snippets, userId, l);
    }
  }

  lemma {:induction false} MyStarsCount(stars: seq<Star>, snippets: seq<Snippet>, userId: string, l: string)
    ensures multiset(StarredLanguages(ResolveStars(StarsOf(stars, userId), snippets)))[l] ==
            if l == "" then 0 else |MyStarsIn(stars, snippets, userId, l)|
  {
    if stars != [] {
      var init, last := stars[..|stars| - 1], stars[|stars| - 1];
      assert stars == init + [last];
      StarsOfAppend(init, last, userId);
      var mine := StarsOf(init, userId);
      var found := GetSnippet(snippets, last.snippetId);
      if last.userId == userId {
        ResolveStarsAppend(mine, last, snippets);
        if found.Some? {
          StarredLanguagesAppend(ResolveStars(mine, snippets), found.value);
        } else {
          assert ResolveStars(mine + [last], snippets) == ResolveStars(mine, snippets);
        }
      } else {
        assert StarsOf(stars, userId) == mine;
      }
      MyStarsCount(init, snippets, userId, l);
      MyStarsInAppend(init, last, snippets, userId, l);
    }
  }

  lemma MyStarsInAppend(init: seq<Star>, last: Star, snippets: seq<Snippet>, userId: string, l: string)
    ensures var found := GetSnippet(snippets, last.snippetId);
            |MyStarsIn(init + [last], snippets, userId, l)| ==
            |MyStarsIn(init, snippets, userId, l)| +
            (if last.userId == userId && found.Some? && found.value.language == l then 1 else 0)
  {
    var stars := init + [last];
    var found := GetSnippet(snippets, last.snippetId);
    forall k | 0 <= k < |init| ensures stars[k] == init[k] { }
    var hit := last.userId == userId && found.Some? && found.value.language == l;
    assert MyStarsIn(stars, snippets, userId, l) ==
           MyStarsIn(init, snippets, userId, l) + (if hit then {|init|} else {});
    assert |init| !in MyStarsIn(init, snippets, userId, l);
  }

  /** No language is counted exactly when every starred snippet has an empty language. */
  lemma NothingStarredCounted(resolved: seq<Snippet>)
    ensures Tally(StarredLanguages(resolved)) == [] <==> forall sn :: sn in resolved ==> sn.language == ""
  {
    var langs := StarredLanguages(resolved);
    TallyCounts(langs);
    if Tally(langs) != [] {
      assert Keys(Tally(langs))[0] in langs;
    }
  }

  lemma LanguagesOfMembers(executions: seq<Execution>)
    ensures forall l :: l in LanguagesOf(executions) <==> exists e :: e in executions && e.language == l
  {
    var ls := LanguagesOf(executions);
    forall l ensures l in ls <==> exists e :: e in executions && e.language == l {
      if l in ls {
        var k :| 0 <= k < |ls| && ls[k] == l;
        assert executions[k] in executions;
      }
      if e :| e in executions && e.language == l {
        var k :| 0 <= k < |executions| && executions[k] == e;
        assert ls[k] == l;
      }
    }
  }

  /** A user with no executions and no stars gets the empty statistics. */
  lemma EmptyHistoryStats(snippets: seq<Snippet>, userId: string, now: int)
    ensures GetUserStats([], [], snippets, userId, now) ==
            UsageStats(0, 0, [], 0, "N/A", [], "N/A")
  {
  }

  /**
   * The two tie-breaks differ: with one python and one javascript run, the
   * favourite (a reduce keeping the later key on a tie) is javascript, while
   * the most counted entry (a stable sort by count) is python.
   */
  lemma TieBreaksDiffer()
    ensures Favorite(Tally(["python", "javascript"])) == "javascript"
    ensures MostCounted(Tally(["python", "javascript"])) == "python"
  {
    var once := Tally(["python"]);
    assert ["python", "javascript"][..1] == ["python"];
    assert once == [Entry("python", 1)];
    assert Tally(["python", "javascript"]) == [Entry("python", 1), Entry("javascript", 1)];
  }
}
