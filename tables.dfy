/**
 * The documents of the five tables (user, codeExecutions, snippets,
 * snippetComments, stars), the errors the handlers throw, and the in-memory
 * database the mutations change: one sequence per table, in insertion order,
 * and one id counter shared by all tables.
 */
module Tables {
  import opened Wrappers

  /** A document id. Ids come from one counter, so they never repeat. */
  type Id = nat

  /** What the auth provider attaches to an authenticated request. */
  datatype Identity = Identity(subject: string)

  datatype User = User(
    id: Id,
    creationTime: int,
    userId: string,
    email: string,
    name: string,
    isPro: bool,
    proSince: Option<int>,
    lemonSqueezyCustomerId: Option<string>,
    lemonSqueezyOrderId: Option<string>)

  datatype Execution = Execution(
    id: Id,
    creationTime: int,
    userId: string,
    language: string,
    code: string,
    output: Option<string>,
    error: Option<string>)

  datatype Snippet = Snippet(
    id: Id,
    creationTime: int,
    userId: string,
    title: string,
    language: string,
    code: string,
    userName: string)

  datatype Comment = Comment(
    id: Id,
    creationTime: int,
    snippetId: Id,
    userId: string,
    userName: string,
    content: string)

  datatype Star = Star(
    id: Id,
    creationTime: int,
    userId: string,
    snippetId: Id)

  /** The errors the mutations and queries throw, with their exact messages. */
  datatype Error =
    | NotAuthenticated
    | ProSubscriptionRequired
    | UserNotFound
    | SnippetNotFound
    | NotAuthorizedToDeleteSnippet
    | CommentNotFound
    | NotAuthorizedToDeleteComment
  {
    function Message(): string {
      match this
      case NotAuthenticated => "Not authenticated"
      case ProSubscriptionRequired => "Pro subscription required to use this language"
      case UserNotFound => "User not found"
      case SnippetNotFound => "Snippet not found"
      case NotAuthorizedToDeleteSnippet => "Not authorized to delete this snippet"
      case CommentNotFound => "Comment not found"
      case NotAuthorizedToDeleteComment => "Not authorized to delete this comment"
    }
  }

  // Each table lists its documents in insertion order, so ids ascend along it
  // and stay below the counter.

  ghost predicate UsersOrdered(s: seq<User>, bound: Id) {
    && (forall i, j :: 0 <= i < j < |s| ==> s[i].id < s[j].id)
    && (forall i :: 0 <= i < |s| ==> s[i].id < bound)
  }

  ghost predicate ExecutionIdsAscending(s: seq<Execution>) {
    forall i, j :: 0 <= i < j < |s| ==> s[i].id < s[j].id
  }

  ghost predicate ExecutionsOrdered(s: seq<Execution>, bound: Id) {
    && ExecutionIdsAscending(s)
    && (forall i :: 0 <= i < |s| ==> s[i].id < bound)
  }

  ghost predicate SnippetIdsAscending(s: seq<Snippet>) {
    forall i, j :: 0 <= i < j < |s| ==> s[i].id < s[j].id
  }

  ghost predicate SnippetsOrdered(s: seq<Snippet>, bound: Id) {
    && SnippetIdsAscending(s)
    && (forall i :: 0 <= i < |s| ==> s[i].id < bound)
  }

  ghost predicate CommentIdsAscending(s: seq<Comment>) {
    forall i, j :: 0 <= i < j < |s| ==> s[i].id < s[j].id
  }

  ghost predicate CommentsOrdered(s: seq<Comment>, bound: Id) {
    && CommentIdsAscending(s)
    && (forall i :: 0 <= i < |s| ==> s[i].id < bound)
  }

  ghost predicate StarsOrdered(s: seq<Star>, bound: Id) {
    && (forall i, j :: 0 <= i < j < |s| ==> s[i].id < s[j].id)
    && (forall i :: 0 <= i < |s| ==> s[i].id < bound)
  }

  /** At most one user document per auth subject: what syncUser maintains. */
  ghost predicate UniqueUserIds(users: seq<User>) {
    forall i, j :: 0 <= i < j < |users| ==> users[i].userId != users[j].userId
  }

  class Database {
    var users: seq<User>
    var codeExecutions: seq<Execution>
    var snippets: seq<Snippet>
    var snippetComments: seq<Comment>
    var stars: seq<Star>
    var nextId: Id

    ghost predicate Valid()
      reads this
    {
      && UsersOrdered(users, nextId)
      && ExecutionsOrdered(codeExecutions, nextId)
      && SnippetsOrdered(snippets, nextId)
      && CommentsOrdered(snippetComments, nextId)
      && StarsOrdered(stars, nextId)
      && UniqueUserIds(users)
    }

    /** A deployment with empty tables. */
    constructor ()
      ensures Valid()
      ensures users == [] && codeExecutions == [] && snippets == []
      ensures snippetComments == [] && stars == [] && nextId == 0
    {
      users, codeExecutions, snippets, snippetComments, stars := [], [], [], [], [];
      nextId := 0;
    }
  }

  /**
   * The position of the first user document for `userId`: the
   * `.filter(userId == ...).first()` query the handlers run on `user`.
   */
  function IndexOfUserId(users: seq<User>, userId: string): (r: Option<nat>)
    ensures r.Some? ==> r.value < |users| && users[r.value].userId == userId
    ensures r.Some? ==> forall j :: 0 <= j < r.value ==> users[j].userId != userId
    ensures r.None? ==> forall j :: 0 <= j < |users| ==> users[j].userId != userId
  {
    if users == [] then None
    else if users[0].userId == userId then Some(0)
    else match IndexOfUserId(users[1..], userId)
         case None => None
         case Some(k) => Some(k + 1)
  }

  /** The first user document for `userId`, if any. */
  function FindUser(users: seq<User>, userId: string): (r: Option<User>)
    ensures r.Some? ==> r.value in users && r.value.userId == userId
    ensures r.None? <==> forall u :: u in users ==> u.userId != userId
  {
    match IndexOfUserId(users, userId)
    case None => None
    case Some(i) => Some(users[i])
  }

  /** `ctx.db.get(id)` on the snippets table. */
  function GetSnippet(snippets: seq<Snippet>, id: Id): (r: Option<Snippet>)
    ensures r.Some? ==> r.value in snippets && r.value.id == id
    ensures r.None? <==> forall s :: s in snippets ==> s.id != id
  {
    if snippets == [] then None
    else if snippets[0].id == id then Some(snippets[0])
    else GetSnippet(snippets[1..], id)
  }

  /** `.order("desc")`: the documents newest first, that is, in reverse insertion order. */
  function NewestFirst<T(!new)>(s: seq<T>): (r: seq<T>)
    ensures |r| == |s|
    ensures forall i :: 0 <= i < |s| ==> r[i] == s[|s| - 1 - i]
    ensures forall x :: x in r <==> x in s
  {
    if s == [] then []
    else
      assert s == s[..|s| - 1] + [s[|s| - 1]];
      [s[|s| - 1]] + NewestFirst(s[..|s| - 1])
  }

  /** The stars of one user, in insertion order: the `stars` query on `by_user_id`. */
  function StarsOf(stars: seq<Star>, userId: string): (r: seq<Star>)
    ensures forall st :: st in r <==> st in stars && st.userId == userId
    ensures |r| <= |stars|
  {
    if stars == [] then []
    else (if stars[0].userId == userId then [stars[0]] else []) + StarsOf(stars[1..], userId)
  }

  lemma {:induction false} StarsOfAppend(stars: seq<Star>, st: Star, userId: string)
    ensures StarsOf(stars + [st], userId) == StarsOf(stars, userId) + (if st.userId == userId then [st] else [])
  {
    if stars == [] {
      assert [] + [st] == [st] && [st][1..] == [];
    } else {
      assert (stars + [st])[1..] == stars[1..] + [st];
      StarsOfAppend(stars[1..], st, userId);
    }
  }

  /** `ctx.db.get(id)` on the snippetComments table. */
  function GetComment(comments: seq<Comment>, id: Id): (r: Option<Comment>)
    ensures r.Some? ==> r.value in comments && r.value.id == id
    ensures r.None? <==> forall c :: c in comments ==> c.id != id
  {
    if comments == [] then None
    else if comments[0].id == id then Some(comments[0])
    else GetComment(comments[1..], id)
  }

  /**
   * `Promise.all(stars.map(star => ctx.db.get(star.snippetId)))` followed by
   * dropping the nulls: each star's snippet, in star order, where it still exists.
   */
  function ResolveStars(stars: seq<Star>, snippets: seq<Snippet>): (r: seq<Snippet>)
    ensures |r| <= |stars|
    ensures forall sn :: sn in r ==> sn in snippets && exists st :: st in stars && st.snippetId == sn.id
    ensures forall st :: st in stars && GetSnippet(snippets, st.snippetId).Some? ==>
              GetSnippet(snippets, st.snippetId).value in r
  {
    if stars == [] then []
    else
      var rest := ResolveStars(stars[1..], snippets);
      assert forall st :: st in stars ==> st == stars[0] || st in stars[1..];
      match GetSnippet(snippets, stars[0].snippetId)
      case Some(sn) => [sn] + rest
      case None => rest
  }

  /** Resolving one more star appends its snippet when it still exists: the result keeps the stars' order. */
  lemma {:induction false} ResolveStarsAppend(stars: seq<Star>, st: Star, snippets: seq<Snippet>)
    ensures ResolveStars(stars + [st], snippets) ==
            ResolveStars(stars, snippets) +
            (if GetSnippet(snippets, st.snippetId).Some? then [GetSnippet(snippets, st.snippetId).value] else [])
  {
    if stars == [] {
      assert [] + [st] == [st] && [st][1..] == [];
    } else {
      assert (stars + [st])[1..] == stars[1..] + [st];
      ResolveStarsAppend(stars[1..], st, snippets);
    }
  }

  /** The positions of the stars that resolve to the snippet `sn`. */
  ghost function ResolvingStars(stars: seq<Star>, snippets: seq<Snippet>, sn: Snippet): set<int> {
    set i | 0 <= i < |stars| && GetSnippet(snippets, stars[i].snippetId) == Some(sn)
  }

  /** One entry per star whose snippet resolves: each snippet occurs once for every star that resolves to it. */
  lemma ResolveStarsCounts(stars: seq<Star>, snippets: seq<Snippet>)
    ensures forall sn :: multiset(ResolveStars(stars, snippets))[sn] == |ResolvingStars(stars, snippets, sn)|
  {
    forall sn ensures multiset(ResolveStars(stars, snippets))[sn] == |ResolvingStars(stars, snippets, sn)| {
      ResolveStarsCount(stars, snippets, sn);
    }
  }

  lemma {:induction false} ResolveStarsCount(stars: seq<Star>, snippets: seq<Snippet>, sn: Snippet)
    ensures multiset(ResolveStars(stars, snippets))[sn] == |ResolvingStars(stars, snippets, sn)|
  {
    if stars != [] {
      var init, last := stars[..|stars| - 1], stars[|stars| - 1];
      assert stars == init + [last];
      var found := GetSnippet(snippets, last.snippetId);
      var tail := if found.Some? then [found.value] else [];
      ResolveStarsAppend(init, last, snippets);
      assert multiset(tail)[sn] == if found == Some(sn) then 1 else 0;
      ResolveStarsCount(init, snippets, sn);
      ResolvingStarsAppend(init, last, snippets, sn);
    }
  }

  lemma ResolvingStarsAppend(init: seq<Star>, last: Star, snippets: seq<Snippet>, sn: Snippet)
    ensures |ResolvingStars(init + [last], snippets, sn)| ==
            |ResolvingStars(init, snippets, sn)| + (if GetSnippet(snippets, last.snippetId) == Some(sn) then 1 else 0)
  {
    var stars := init + [last];
    var before := ResolvingStars(init, snippets, sn);
    var extra := if GetSnippet(snippets, last.snippetId) == Some(sn) then {|init|} else {};
    forall k | 0 <= k < |init| ensures stars[k] == init[k] { }
    assert ResolvingStars(stars, snippets, sn) == before + extra;
    assert |init| !in before;
  }
}
