/**
 * Snippets, their comments and their stars: creation, the cascading delete,
 * the star toggle, commenting, and the read queries.
 */
module Snippets {
  import opened Wrappers
  import opened Tables

  // ---------------------------------------------------------------------
  // Table filters. `ctx.db.delete(id)` on a table is dropping the ids {id}.
  // ---------------------------------------------------------------------

  /** The comments on one snippet, in insertion order: the `by_snippet_id` query. */
  function CommentsOn(comments: seq<Comment>, snippetId: Id): (r: seq<Comment>)
    ensures forall c :: c in r <==> c in comments && c.snippetId == snippetId
    ensures |r| <= |comments|
  {
    if comments == [] then []
    else if comments[0].snippetId != snippetId then CommentsOn(comments[1..], snippetId)
    else [comments[0]] + CommentsOn(comments[1..], snippetId)
  }

  /** The comments table without the comments on one snippet. */
  function CommentsNotOn(comments: seq<Comment>, snippetId: Id): (r: seq<Comment>)
    ensures forall c :: c in r <==> c in comments && c.snippetId != snippetId
  {
    if comments == [] then []
    else if comments[0].snippetId == snippetId then CommentsNotOn(comments[1..], snippetId)
    else [comments[0]] + CommentsNotOn(comments[1..], snippetId)
  }

  /** The comments table after deleting the documents with these ids. */
  function DropComments(comments: seq<Comment>, ids: set<Id>): (r: seq<Comment>)
    ensures forall c :: c in r <==> c in comments && c.id !in ids
  {
    if comments == [] then []
    else if comments[0].id in ids then DropComments(comments[1..], ids)
    else [comments[0]] + DropComments(comments[1..], ids)
  }

  /** The stars on one snippet, in insertion order: the `by_snippet_id` query. */
  function StarsOn(stars: seq<Star>, snippetId: Id): (r: seq<Star>)
    ensures forall st :: st in r <==> st in stars && st.snippetId == snippetId
    ensures |r| <= |stars|
  {
    if stars == [] then []
    else if stars[0].snippetId != snippetId then StarsOn(stars[1..], snippetId)
    else [stars[0]] + StarsOn(stars[1..], snippetId)
  }

  /** The stars table without the stars on one snippet. */
  function StarsNotOn(stars: seq<Star>, snippetId: Id): (r: seq<Star>)
    ensures forall st :: st in r <==> st in stars && st.snippetId != snippetId
  {
    if stars == [] then []
    else if stars[0].snippetId == snippetId then StarsNotOn(stars[1..], snippetId)
    else [stars[0]] + StarsNotOn(stars[1..], snippetId)
  }

  /** The stars table after deleting the documents with these ids. */
  function DropStars(stars: seq<Star>, ids: set<Id>): (r: seq<Star>)
    ensures forall st :: st in r <==> st in stars && st.id !in ids
    ensures |r| <= |stars|
  {
    if stars == [] then []
    else if stars[0].id in ids then DropStars(stars[1..], ids)
    else [stars[0]] + DropStars(stars[1..], ids)
  }

  /** The snippets table after deleting the snippet with this id. */
  function DropSnippet(snippets: seq<Snippet>, id: Id): (r: seq<Snippet>)
    ensures forall sn :: sn in r <==> sn in snippets && sn.id != id
  {
    if snippets == [] then []
    else if snippets[0].id == id then DropSnippet(snippets[1..], id)
    else [snippets[0]] + DropSnippet(snippets[1..], id)
  }

  /** The ids of a list of comments. */
  function CommentIds(cs: seq<Comment>): (r: set<Id>)
    ensures forall x :: x in r <==> exists c :: c in cs && c.id == x
  {
    if cs == [] then {}
    else
      assert forall c :: c in cs ==> c in cs[..|cs| - 1] || c == cs[|cs| - 1];
      CommentIds(cs[..|cs| - 1]) + {cs[|cs| - 1].id}
  }

  /** The ids of a list of stars. */
  function StarIds(ss: seq<Star>): (r: set<Id>)
    ensures forall x :: x in r <==> exists st :: st in ss && st.id == x
  {
    if ss == [] then {}
    else
      assert forall st :: st in ss ==> st in ss[..|ss| - 1] || st == ss[|ss| - 1];
      StarIds(ss[..|ss| - 1]) + {ss[|ss| - 1].id}
  }

  // Deleting keeps the remaining documents in order; deleting one id after
  // another is deleting all of them; deleting no id changes nothing.

  lemma {:induction false} DropCommentsOrdered(xs: seq<Comment>, ids: set<Id>, bound: Id)
    requires CommentsOrdered(xs, bound)
    ensures CommentsOrdered(DropComments(xs, ids), bound)
  {
    if xs != [] {
      var rest := xs[1..];
      DropCommentsOrdered(rest, ids, bound);
      var r' := DropComments(rest, ids);
      if xs[0].id !in ids {
        forall x | x in r' ensures xs[0].id < x.id {
          var k :| 0 <= k < |rest| && rest[k] == x;
          assert xs[k + 1] == x;
        }
        ConsCommentsOrdered(xs[0], r', bound);
      }
    }
  }

  lemma ConsCommentsOrdered(x: Comment, xs: seq<Comment>, bound: Id)
    requires CommentsOrdered(xs, bound) && x.id < bound
    requires forall y :: y in xs ==> x.id < y.id
    ensures CommentsOrdered([x] + xs, bound)
  {
    var r := [x] + xs;
    forall i, j | 0 <= i < j < |r| ensures r[i].id < r[j].id {
      assert r[j] == xs[j - 1];
      if i == 0 {
        assert xs[j - 1] in xs;
      } else {
        assert r[i] == xs[i - 1];
      }
    }
  }

  lemma {:induction false} DropCommentsNothing(xs: seq<Comment>)
    ensures DropComments(xs, {}) == xs
  {
    if xs != [] {
      DropCommentsNothing(xs[1..]);
      assert xs == [xs[0]] + xs[1..];
    }
  }

  lemma {:induction false} DropCommentsTwice(xs: seq<Comment>, ids: set<Id>, id: Id)
    ensures DropComments(DropComments(xs, ids), {id}) == DropComments(xs, ids + {id})
  {
    if xs != [] {
      DropCommentsTwice(xs[1..], ids, id);
      var r' := DropComments(xs[1..], ids);
      if xs[0].id !in ids {
        var r := [xs[0]] + r';
        assert r[0] == xs[0] && r[1..] == r';
      }
    }
  }

  lemma {:induction false} DropStarsOrdered(xs: seq<Star>, ids: set<Id>, bound: Id)
    requires StarsOrdered(xs, bound)
    ensures StarsOrdered(DropStars(xs, ids), bound)
  {
    if xs != [] {
      var rest := xs[1..];
      DropStarsOrdered(rest, ids, bound);
      var r' := DropStars(rest, ids);
      if xs[0].id !in ids {
        forall x | x in r' ensures xs[0].id < x.id {
          var k :| 0 <= k < |rest| && rest[k] == x;
          assert xs[k + 1] == x;
        }
        ConsStarsOrdered(xs[0], r', bound);
      }
    }
  }

  lemma ConsStarsOrdered(x: Star, xs: seq<Star>, bound: Id)
    requires StarsOrdered(xs, bound) && x.id < bound
    requires forall y :: y in xs ==> x.id < y.id
    ensures StarsOrdered([x] + xs, bound)
  {
    var r := [x] + xs;
    forall i, j | 0 <= i < j < |r| ensures r[i].id < r[j].id {
      assert r[j] == xs[j - 1];
      if i == 0 {
        assert xs[j - 1] in xs;
      } else {
        assert r[i] == xs[i - 1];
      }
    }
  }

  lemma {:induction false} DropStarsNothing(xs: seq<Star>)
    ensures DropStars(xs, {}) == xs
  {
    if xs != [] {
      DropStarsNothing(xs[1..]);
      assert xs == [xs[0]] + xs[1..];
    }
  }

  lemma {:induction false} DropStarsTwice(xs: seq<Star>, ids: set<Id>, id: Id)
    ensures DropStars(DropStars(xs, ids), {id}) == DropStars(xs, ids + {id})
  {
    if xs != [] {
      DropStarsTwice(xs[1..], ids, id);
      var r' := DropStars(xs[1..], ids);
      if xs[0].id !in ids {
        var r := [xs[0]] + r';
        assert r[0] == xs[0] && r[1..] == r';
      }
    }
  }

  lemma {:induction false} DropSnippetOrdered(xs: seq<Snippet>, id: Id, bound: Id)
    requires SnippetsOrdered(xs, bound)
    ensures SnippetsOrdered(DropSnippet(xs, id), bound)
  {
    if xs != [] {
      var rest := xs[1..];
      DropSnippetOrdered(rest, id, bound);
      var r' := DropSnippet(rest, id);
      if xs[0].id != id {
        forall x | x in r' ensures xs[0].id < x.id {
          var k :| 0 <= k < |rest| && rest[k] == x;
          assert xs[k + 1] == x;
        }
        ConsSnippetsOrdered(xs[0], r', bound);
      }
    }
  }

  lemma ConsSnippetsOrdered(x: Snippet, xs: seq<Snippet>, bound: Id)
    requires SnippetsOrdered(xs, bound) && x.id < bound
    requires forall y :: y in xs ==> x.id < y.id
    ensures SnippetsOrdered([x] + xs, bound)
  {
    var r := [x] + xs;
    forall i, j | 0 <= i < j < |r| ensures r[i].id < r[j].id {
      assert r[j] == xs[j - 1];
      if i == 0 {
        assert xs[j - 1] in xs;
      } else {
        assert r[i] == xs[i - 1];
      }
    }
  }

  /** Dropping exactly the ids of the rows on a snippet is dropping the rows on it. */
  lemma {:induction false} DropCommentsIsNotOn(comments: seq<Comment>, ids: set<Id>, snippetId: Id)
    requires forall c :: c in comments ==> (c.id in ids <==> c.snippetId == snippetId)
    ensures DropComments(comments, ids) == CommentsNotOn(comments, snippetId)
  {
    if comments != [] {
      assert comments[0] in comments;
      assert forall c :: c in comments[1..] ==> c in comments;
      DropCommentsIsNotOn(comments[1..], ids, snippetId);
    }
  }

  lemma {:induction false} DropStarsIsNotOn(stars: seq<Star>, ids: set<Id>, snippetId: Id)
    requires forall st :: st in stars ==> (st.id in ids <==> st.snippetId == snippetId)
    ensures DropStars(stars, ids) == StarsNotOn(stars, snippetId)
  {
    if stars != [] {
      assert stars[0] in stars;
      assert forall st :: st in stars[1..] ==> st in stars;
      DropStarsIsNotOn(stars[1..], ids, snippetId);
    }
  }

  // ---------------------------------------------------------------------
  // Mutations
  // ---------------------------------------------------------------------

  /** createSnippet: the new snippet carries the author's name; its id is the result. */
  method CreateSnippet(db: Database, identity: Option<Identity>, title: string, language: string,
                       code: string, now: int)
    returns (r: Result<Id, Error>)
    requires db.Valid()
    modifies db
    ensures db.Valid()
    ensures identity.None? ==> r == Failure(NotAuthenticated) && unchanged(db)
    ensures identity.Some? && FindUser(old(db.users), identity.value.subject).None? ==>
              r == Failure(UserNotFound) && unchanged(db)
    ensures identity.Some? && FindUser(old(db.users), identity.value.subject).Some? ==>
              var author := FindUser(old(db.users), identity.value.subject).value;
              && r == Success(old(db.nextId))
              && db.snippets == old(db.snippets) +
                   [Snippet(old(db.nextId), now, identity.value.subject, title, language, code, author.name)]
              && db.nextId == old(db.nextId) + 1
    ensures db.users == old(db.users) && db.codeExecutions == old(db.codeExecutions)
    ensures db.snippetComments == old(db.snippetComments) && db.stars == old(db.stars)
  {
    if identity.None? {
      return Failure(NotAuthenticated);
    }
    var user := FindUser(db.users, identity.value.subject);
    if user.None? {
      return Failure(UserNotFound);
    }
    var snippetId := db.nextId;
    db.snippets := db.snippets +
      [Snippet(snippetId, now, identity.value.subject, title, language, code, user.value.name)];
    db.nextId := db.nextId + 1;
    r := Success(snippetId);
  }

  /**
   * deleteSnippet: only the author may delete; the comments on the snippet
   * are deleted one by one, then its stars, then the snippet itself.
   */
  method DeleteSnippet(db: Database, identity: Option<Identity>, snippetId: Id) returns (r: Outcome<Error>)
    requires db.Valid()
    modifies db
    ensures db.Valid()
    ensures identity.None? ==> r == Fail(NotAuthenticated) && unchanged(db)
    ensures identity.Some? && GetSnippet(old(db.snippets), snippetId).None? ==>
              r == Fail(SnippetNotFound) && unchanged(db)
    ensures identity.Some? && GetSnippet(old(db.snippets), snippetId).Some? &&
            GetSnippet(old(db.snippets), snippetId).value.userId != identity.value.subject ==>
              r == Fail(NotAuthorizedToDeleteSnippet) && unchanged(db)
    ensures identity.Some? && GetSnippet(old(db.snippets), snippetId).Some? &&
            GetSnippet(old(db.snippets), snippetId).value.userId == identity.value.subject ==>
              && r == Pass
              && db.snippets == DropSnippet(old(db.snippets), snippetId)
              && db.snippetComments == CommentsNotOn(old(db.snippetComments), snippetId)
              && db.stars == StarsNotOn(old(db.stars), snippetId)
    ensures db.users == old(db.users) && db.codeExecutions == old(db.codeExecutions)
    ensures db.nextId == old(db.nextId)
  {
    if identity.None? {
      return Fail(NotAuthenticated);
    }
    var snippet := GetSnippet(db.snippets, snippetId);
    if snippet.None? {
      return Fail(SnippetNotFound);
    }
    if snippet.value.userId != identity.value.subject {
      return Fail(NotAuthorizedToDeleteSnippet);
    }

    DeleteCommentsOn(db, snippetId);
    DeleteStarsOn(db, snippetId);
    DropSnippetOrdered(db.snippets, snippetId, db.nextId);
    db.snippets := DropSnippet(db.snippets, snippetId);
    r := Pass;
  }

  /** The first loop of deleteSnippet: delete, one by one, the comments the `by_snippet_id` query collects. */
  method DeleteCommentsOn(db: Database, snippetId: Id)
    requires db.Valid()
    modifies db
    ensures db.Valid()
    ensures db.snippetComments == CommentsNotOn(old(db.snippetComments), snippetId)
    ensures db.users == old(db.users) && db.codeExecutions == old(db.codeExecutions)
    ensures db.snippets == old(db.snippets) && db.stars == old(db.stars) && db.nextId == old(db.nextId)
  {
    var comments := CommentsOn(db.snippetComments, snippetId);
    ghost var comments0 := db.snippetComments;
    ghost var dropped: set<Id> := {};
    DropCommentsNothing(comments0);
    var i := 0;
    while i < |comments|
      invariant 0 <= i <= |comments|
      invariant dropped == CommentIds(comments[..i])
      invariant db.snippetComments == DropComments(comments0, dropped)
      invariant db.users == old(db.users) && db.codeExecutions == old(db.codeExecutions)
      invariant db.snippets == old(db.snippets) && db.stars == old(db.stars) && db.nextId == old(db.nextId)
    {
      DropNextComment(comments0, comments, i);
      db.snippetComments := DropComments(db.snippetComments, {comments[i].id});
      dropped := dropped + {comments[i].id};
      i := i + 1;
    }
    assert comments[..i] == comments;
    DropCommentsOrdered(comments0, dropped, db.nextId);
    CollectedCommentIds(comments0, snippetId, dropped, db.nextId);
    DropCommentsIsNotOn(comments0, dropped, snippetId);
  }

  /** The second loop of deleteSnippet: delete, one by one, the stars on the snippet. */
  method DeleteStarsOn(db: Database, snippetId: Id)
    requires db.Valid()
    modifies db
    ensures db.Valid()
    ensures db.stars == StarsNotOn(old(db.stars), snippetId)
    ensures db.users == old(db.users) && db.codeExecutions == old(db.codeExecutions)
    ensures db.snippets == old(db.snippets) && db.snippetComments == old(db.snippetComments)
    ensures db.nextId == old(db.nextId)
  {
    var stars := StarsOn(db.stars, snippetId);
    ghost var stars0 := db.stars;
    ghost var unstarred: set<Id> := {};
    DropStarsNothing(stars0);
    var j := 0;
    while j < |stars|
      invariant 0 <= j <= |stars|
      invariant unstarred == StarIds(stars[..j])
      invariant db.stars == DropStars(stars0, unstarred)
      invariant db.users == old(db.users) && db.codeExecutions == old(db.codeExecutions)
      invariant db.snippets == old(db.snippets) && db.snippetComments == old(db.snippetComments)
      invariant db.nextId == old(db.nextId)
    {
      DropNextStar(stars0, stars, j);
      db.stars := DropStars(db.stars, {stars[j].id});
      unstarred := unstarred + {stars[j].id};
      j := j + 1;
    }
    assert stars[..j] == stars;
    DropStarsOrdered(stars0, unstarred, db.nextId);
    CollectedStarIds(stars0, snippetId, unstarred, db.nextId);
    DropStarsIsNotOn(stars0, unstarred, snippetId);
  }

  /** One step of the first loop: deleting the next collected comment. */
  lemma DropNextComment(comments0: seq<Comment>, comments: seq<Comment>, i: nat)
    requires i < |comments|
    ensures CommentIds(comments[..i + 1]) == CommentIds(comments[..i]) + {comments[i].id}
    ensures DropComments(DropComments(comments0, CommentIds(comments[..i])), {comments[i].id}) ==
            DropComments(comments0, CommentIds(comments[..i + 1]))
  {
    assert comments[..i + 1][..i] == comments[..i];
    DropCommentsTwice(comments0, CommentIds(comments[..i]), comments[i].id);
  }

  /** One step of the second loop: deleting the next collected star. */
  lemma DropNextStar(stars0: seq<Star>, stars: seq<Star>, j: nat)
    requires j < |stars|
    ensures StarIds(stars[..j + 1]) == StarIds(stars[..j]) + {stars[j].id}
    ensures DropStars(DropStars(stars0, StarIds(stars[..j])), {stars[j].id}) ==
            DropStars(stars0, StarIds(stars[..j + 1]))
  {
    assert stars[..j + 1][..j] == stars[..j];
    DropStarsTwice(stars0, StarIds(stars[..j]), stars[j].id);
  }

  /** The ids collected by the `by_snippet_id` query pick out exactly the comments on the snippet. */
  lemma CollectedCommentIds(comments: seq<Comment>, snippetId: Id, ids: set<Id>, bound: Id)
    requires CommentsOrdered(comments, bound)
    requires ids == CommentIds(CommentsOn(comments, snippetId))
    ensures forall c :: c in comments ==> (c.id in ids <==> c.snippetId == snippetId)
  {
    var on := CommentsOn(comments, snippetId);
    forall c | c in comments ensures c.id in ids <==> c.snippetId == snippetId {
      if c.snippetId == snippetId {
        assert c in on;
      }
      if c.id in ids {
        var o :| o in on && o.id == c.id;
        var a :| 0 <= a < |comments| && comments[a] == c;
        var b :| 0 <= b < |comments| && comments[b] == o;
        assert a == b;
      }
    }
  }

  lemma CollectedStarIds(stars: seq<Star>, snippetId: Id, ids: set<Id>, bound: Id)
    requires StarsOrdered(stars, bound)
    requires ids == StarIds(StarsOn(stars, snippetId))
    ensures forall st :: st in stars ==> (st.id in ids <==> st.snippetId == snippetId)
  {
    var on := StarsOn(stars, snippetId);
    forall st | st in stars ensures st.id in ids <==> st.snippetId == snippetId {
      if st.snippetId == snippetId {
        assert st in on;
      }
      if st.id in ids {
        var o :| o in on && o.id == st.id;
        var a :| 0 <= a < |stars| && stars[a] == st;
        var b :| 0 <= b < |stars| && stars[b] == o;
        assert a == b;
      }
    }
  }

  // ---------------------------------------------------------------------
  // Stars
  // ---------------------------------------------------------------------

  /**
   * The star the toggle and isSnippetStarred find. The filter joins its two
   * comparisons with JavaScript's `&&`, which yields the second comparison
   * only, so the first star on the snippet is found whoever placed it.
   */
  function FirstStarOn(stars: seq<Star>, snippetId: Id): (r: Option<nat>)
    ensures r.Some? ==> r.value < |stars| && stars[r.value].snippetId == snippetId
    ensures r.Some? ==> forall j :: 0 <= j < r.value ==> stars[j].snippetId != snippetId
    ensures r.None? <==> forall st :: st in stars ==> st.snippetId != snippetId
  {
    if stars == [] then None
    else if stars[0].snippetId == snippetId then Some(0)
    else match FirstStarOn(stars[1..], snippetId)
         case None => assert forall st :: st in stars ==> st == stars[0] || st in stars[1..]; None
         case Some(k) => Some(k + 1)
  }

  /** The stars table after starSnippet by `userId`: the found star is deleted, or a new one is inserted. */
  function ToggledStars(stars: seq<Star>, nextId: Id, now: int, userId: string, snippetId: Id): (r: seq<Star>)
  {
    match FirstStarOn(stars, snippetId)
    case Some(i) => DropStars(stars, {stars[i].id})
    case None => stars + [Star(nextId, now, userId, snippetId)]
  }

  method StarSnippet(db: Database, identity: Option<Identity>, snippetId: Id, now: int) returns (r: Outcome<Error>)
    requires db.Valid()
    modifies db
    ensures db.Valid()
    ensures identity.None? ==> r == Fail(NotAuthenticated) && unchanged(db)
    ensures identity.Some? ==>
              && r == Pass
              && db.stars == ToggledStars(old(db.stars), old(db.nextId), now, identity.value.subject, snippetId)
              && db.nextId == if FirstStarOn(old(db.stars), snippetId).None? then old(db.nextId) + 1 else old(db.nextId)
    ensures db.users == old(db.users) && db.codeExecutions == old(db.codeExecutions)
    ensures db.snippets == old(db.snippets) && db.snippetComments == old(db.snippetComments)
  {
    if identity.None? {
      return Fail(NotAuthenticated);
    }
    var userId := identity.value.subject;
    var existing := FirstStarOn(db.stars, snippetId);
    if existing.Some? {
      DropStarsOrdered(db.stars, {db.stars[existing.value].id}, db.nextId);
      db.stars := DropStars(db.stars, {db.stars[existing.value].id});
    } else {
      db.stars := db.stars + [Star(db.nextId, now, userId, snippetId)];
      db.nextId := db.nextId + 1;
    }
    r := Pass;
  }

  /** Deleting the id of one star of an ordered table removes exactly that star. */
  lemma DropOneStar(stars: seq<Star>, i: nat, bound: Id)
    requires StarsOrdered(stars, bound) && i < |stars|
    ensures DropStars(stars, {stars[i].id}) == stars[..i] + stars[i + 1..]
  {
    forall k | 0 <= k < |stars| && k != i ensures stars[k].id != stars[i].id {
    }
    DropOnlyStar(stars, i);
  }

  /** Deleting an id that only one star carries removes exactly that star. */
  lemma {:induction false} DropOnlyStar(stars: seq<Star>, i: nat)
    requires i < |stars|
    requires forall k :: 0 <= k < |stars| && k != i ==> stars[k].id != stars[i].id
    ensures DropStars(stars, {stars[i].id}) == stars[..i] + stars[i + 1..]
  {
    var rest := stars[1..];
    if i == 0 {
      DropHeadStar(stars);
    } else {
      forall k | 0 <= k < |rest| && k != i - 1 ensures rest[k].id != rest[i - 1].id {
        assert rest[k] == stars[k + 1];
      }
      DropOnlyStar(rest, i - 1);
      assert stars[0].id != stars[i].id;
      ConsSlices(stars, i);
    }
  }

  /** Removing position `i > 0` from a sequence keeps its head in front. */
  lemma ConsSlices<T>(s: seq<T>, i: nat)
    requires 0 < i < |s|
    ensures [s[0]] + (s[1..][..i - 1] + s[1..][i..]) == s[..i] + s[i + 1..]
  {
    assert s[..i] == [s[0]] + s[1..][..i - 1];
    assert s[i + 1..] == s[1..][i..];
  }

  /** Deleting the id of a first star no other star carries removes just the first. */
  lemma DropHeadStar(stars: seq<Star>)
    requires |stars| > 0
    requires forall k :: 0 < k < |stars| ==> stars[k].id != stars[0].id
    ensures DropStars(stars, {stars[0].id}) == stars[1..]
  {
    var rest := stars[1..];
    forall k | 0 <= k < |rest| ensures rest[k].id !in {stars[0].id} {
      assert rest[k] == stars[k + 1];
    }
    DropNoneOfStars(rest, {stars[0].id});
  }

  lemma {:induction false} DropNoneOfStars(stars: seq<Star>, ids: set<Id>)
    requires forall k :: 0 <= k < |stars| ==> stars[k].id !in ids
    ensures DropStars(stars, ids) == stars
  {
    if stars != [] {
      var rest := stars[1..];
      forall k | 0 <= k < |rest| ensures rest[k].id !in ids {
        assert rest[k] == stars[k + 1];
      }
      DropNoneOfStars(rest, ids);
      assert stars == [stars[0]] + rest;
    }
  }

  lemma {:induction false} StarsOnSplit(a: seq<Star>, b: seq<Star>, snippetId: Id)
    ensures StarsOn(a + b, snippetId) == StarsOn(a, snippetId) + StarsOn(b, snippetId)
  {
    if a != [] {
      assert (a + b)[1..] == a[1..] + b;
      StarsOnSplit(a[1..], b, snippetId);
    } else {
      assert a + b == b;
    }
  }

  /** Appending a star adds it to the stars of its snippet only. */
  lemma StarsOnAppend(stars: seq<Star>, x: Star, snippetId: Id)
    ensures StarsOn(stars + [x], snippetId) == StarsOn(stars, snippetId) + (if x.snippetId == snippetId then [x] else [])
  {
    StarsOnSplit(stars, [x], snippetId);
    assert [x][1..] == [];
  }

  /** Removing the star at position `i` removes it from the stars of its snippet only. */
  lemma StarsOnRemove(stars: seq<Star>, i: nat, snippetId: Id)
    requires i < |stars|
    ensures |StarsOn(stars[..i] + stars[i + 1..], snippetId)| ==
            |StarsOn(stars, snippetId)| - (if stars[i].snippetId == snippetId then 1 else 0)
  {
    assert stars == (stars[..i] + [stars[i]]) + stars[i + 1..];
    StarsOnSplit(stars[..i] + [stars[i]], stars[i + 1..], snippetId);
    StarsOnSplit(stars[..i], [stars[i]], snippetId);
    StarsOnSplit(stars[..i], stars[i + 1..], snippetId);
    assert [stars[i]][1..] == [];
  }

  /**
   * A toggle changes the star count of the snippet by one: up from zero, or
   * down by one whoever placed the star it deletes; other snippets keep theirs.
   */
  lemma StarToggleCount(stars: seq<Star>, nextId: Id, now: int, userId: string, snippetId: Id, other: Id)
    requires StarsOrdered(stars, nextId)
    requires other != snippetId
    ensures var after := ToggledStars(stars, nextId, now, userId, snippetId);
            && (|StarsOn(stars, snippetId)| == 0 ==> |StarsOn(after, snippetId)| == 1)
            && (|StarsOn(stars, snippetId)| > 0 ==> |StarsOn(after, snippetId)| == |StarsOn(stars, snippetId)| - 1)
            && |StarsOn(after, other)| == |StarsOn(stars, other)|
  {
    var added := Star(nextId, now, userId, snippetId);
    StarsOnEmpty(stars, snippetId);
    match FirstStarOn(stars, snippetId)
    case None =>
      StarsOnAppend(stars, added, snippetId);
      StarsOnAppend(stars, added, other);
    case Some(i) =>
      DropOneStar(stars, i, nextId);
      StarsOnRemove(stars, i, snippetId);
      StarsOnRemove(stars, i, other);
  }

  /** Two toggles on a snippet nobody has starred leave the stars table as it was. */
  /** No snippet carries two stars: the shape the toggle is built for. */
  ghost predicate OneStarPerSnippet(stars: seq<Star>) {
    forall id :: |StarsOn(stars, id)| <= 1
  }

  /** Toggling keeps every snippet at no more than one star. */
  lemma ToggleKeepsOneStarPerSnippet(stars: seq<Star>, nextId: Id, now: int, userId: string, snippetId: Id)
    requires StarsOrdered(stars, nextId)
    requires OneStarPerSnippet(stars)
    ensures OneStarPerSnippet(ToggledStars(stars, nextId, now, userId, snippetId))
  {
    var after := ToggledStars(stars, nextId, now, userId, snippetId);
    forall id ensures |StarsOn(after, id)| <= 1 {
      if id == snippetId {
        StarToggleCount(stars, nextId, now, userId, snippetId, snippetId + 1);
      } else {
        StarToggleCount(stars, nextId, now, userId, snippetId, id);
      }
    }
  }

  /** Deleting a snippet keeps every other snippet at no more than one star. */
  lemma DeleteKeepsOneStarPerSnippet(stars: seq<Star>, snippetId: Id)
    requires OneStarPerSnippet(stars)
    ensures OneStarPerSnippet(StarsNotOn(stars, snippetId))
  {
    forall id ensures |StarsOn(StarsNotOn(stars, snippetId), id)| <= 1 {
      StarsOnNotOn(stars, snippetId, id);
    }
  }

  lemma {:induction false} StarsOnNotOn(stars: seq<Star>, snippetId: Id, id: Id)
    ensures |StarsOn(StarsNotOn(stars, snippetId), id)| <= |StarsOn(stars, id)|
  {
    if stars != [] {
      StarsOnNotOn(stars[1..], snippetId, id);
      if stars[0].snippetId != snippetId {
        assert ([stars[0]] + StarsNotOn(stars[1..], snippetId))[1..] == StarsNotOn(stars[1..], snippetId);
      }
    }
  }

  lemma StarToggleTwice(stars: seq<Star>, nextId: Id, now: int, now': int, userId: string, userId': string, snippetId: Id)
    requires StarsOrdered(stars, nextId)
    requires FirstStarOn(stars, snippetId).None?
    ensures ToggledStars(ToggledStars(stars, nextId, now, userId, snippetId), nextId + 1, now', userId', snippetId) == stars
  {
    var added := Star(nextId, now, userId, snippetId);
    var once := stars + [added];
    assert StarsOrdered(once, nextId + 1);
    assert FirstStarOn(once, snippetId) == Some(|stars|) by {
      FirstStarOnAppend(stars, added, snippetId);
    }
    DropOneStar(once, |stars|, nextId + 1);
    assert once[..|stars|] == stars;
  }

  lemma {:induction false} FirstStarOnAppend(stars: seq<Star>, x: Star, snippetId: Id)
    requires FirstStarOn(stars, snippetId).None? && x.snippetId == snippetId
    ensures FirstStarOn(stars + [x], snippetId) == Some(|stars|)
  {
    if stars != [] {
      assert (stars + [x])[1..] == stars[1..] + [x];
      assert stars[0] in stars;
      assert forall st :: st in stars[1..] ==> st in stars;
      FirstStarOnAppend(stars[1..], x, snippetId);
    }
  }

  /** isSnippetStarred: false when signed out; otherwise whether the lookup finds a star. */
  function IsSnippetStarred(stars: seq<Star>, identity: Option<Identity>, snippetId: Id): (r: bool)
    ensures identity.None? ==> !r
    ensures identity.Some? ==> (r <==> exists st :: st in stars && st.snippetId == snippetId)
  {
    identity.Some? && FirstStarOn(stars, snippetId).Some?
  }

  /** As written, the answer does not depend on who asks. */
  lemma StarredForEveryone(stars: seq<Star>, u: string, u': string, snippetId: Id)
    ensures IsSnippetStarred(stars, Some(Identity(u)), snippetId) == IsSnippetStarred(stars, Some(Identity(u')), snippetId)
  {
  }

  /** On a snippet with at most one star, a toggle flips what isSnippetStarred reports. */
  lemma StarToggleFlips(stars: seq<Star>, nextId: Id, now: int, userId: string, snippetId: Id)
    requires StarsOrdered(stars, nextId)
    requires |StarsOn(stars, snippetId)| <= 1
    ensures var who := Some(Identity(userId));
            IsSnippetStarred(ToggledStars(stars, nextId, now, userId, snippetId), who, snippetId) ==
            !IsSnippetStarred(stars, who, snippetId)
  {
    var after := ToggledStars(stars, nextId, now, userId, snippetId);
    StarToggleCount(stars, nextId, now, userId, snippetId, snippetId + 1);
    StarsOnEmpty(stars, snippetId);
    StarsOnEmpty(after, snippetId);
  }

  lemma StarsOnEmpty(stars: seq<Star>, snippetId: Id)
    ensures |StarsOn(stars, snippetId)| == 0 <==> forall st :: st in stars ==> st.snippetId != snippetId
  {
    if |StarsOn(stars, snippetId)| != 0 {
      assert StarsOn(stars, snippetId)[0] in StarsOn(stars, snippetId);
    }
  }

  /** getSnippetStarCount: how many stars the snippet has. */
  function GetSnippetStarCount(stars: seq<Star>, snippetId: Id): (n: nat)
    ensures n <= |stars|
    ensures n == 0 <==> forall st :: st in stars ==> st.snippetId != snippetId
    ensures n == |StarIndicesOn(stars, snippetId)|
  {
    StarsOnEmpty(stars, snippetId);
    StarsOnCount(stars, snippetId);
    |StarsOn(stars, snippetId)|
  }

  /** The positions of the stars on one snippet. */
  ghost function StarIndicesOn(stars: seq<Star>, snippetId: Id): set<int> {
    set i | 0 <= i < |stars| && stars[i].snippetId == snippetId
  }

  lemma {:induction false} StarsOnCount(stars: seq<Star>, snippetId: Id)
    ensures |StarsOn(stars, snippetId)| == |StarIndicesOn(stars, snippetId)|
  {
    if stars != [] {
      var init, last := stars[..|stars| - 1], stars[|stars| - 1];
      assert stars == init + [last];
      StarsOnAppend(init, last, snippetId);
      StarsOnCount(init, snippetId);
      StarIndicesOnAppend(init, last, snippetId);
    }
  }

  lemma StarIndicesOnAppend(init: seq<Star>, last: Star, snippetId: Id)
    ensures |StarIndicesOn(init + [last], snippetId)| ==
            |StarIndicesOn(init, snippetId)| + (if last.snippetId == snippetId then 1 else 0)
  {
    var stars := init + [last];
    forall k | 0 <= k < |init| ensures stars[k] == init[k] { }
    assert StarIndicesOn(stars, snippetId) ==
           StarIndicesOn(init, snippetId) + (if last.snippetId == snippetId then {|init|} else {});
    assert |init| !in StarIndicesOn(init, snippetId);
  }

  /** getStarredSnippets: the caller's starred snippets that still exist, in star order. */
  function GetStarredSnippets(stars: seq<Star>, snippets: seq<Snippet>, identity: Option<Identity>): (r: seq<Snippet>)
    ensures identity.None? ==> r == []
    ensures identity.Some? ==> |r| <= |StarsOf(stars, identity.value.subject)|
    ensures identity.Some? ==> forall sn :: sn in r ==>
              sn in snippets && exists st :: st in stars && st.userId == identity.value.subject && st.snippetId == sn.id
    ensures identity.Some? ==>
              forall st :: st in stars && st.userId == identity.value.subject && GetSnippet(snippets, st.snippetId).Some? ==>
                GetSnippet(snippets, st.snippetId).value in r
  {
    if identity.None? then [] else ResolveStars(StarsOf(stars, identity.value.subject), snippets)
  }

  // ---------------------------------------------------------------------
  // Comments
  // ---------------------------------------------------------------------

  /** addComment: any signed-in user with a user document may comment; the snippet id is not checked. */
  method AddComment(db: Database, identity: Option<Identity>, snippetId: Id, content: string, now: int)
    returns (r: Result<Id, Error>)
    requires db.Valid()
    modifies db
    ensures db.Valid()
    ensures identity.None? ==> r == Failure(NotAuthenticated) && unchanged(db)
    ensures identity.Some? && FindUser(old(db.users), identity.value.subject).None? ==>
              r == Failure(UserNotFound) && unchanged(db)
    ensures identity.Some? && FindUser(old(db.users), identity.value.subject).Some? ==>
              var author := FindUser(old(db.users), identity.value.subject).value;
              && r == Success(old(db.nextId))
              && db.snippetComments == old(db.snippetComments) +
                   [Comment(old(db.nextId), now, snippetId, identity.value.subject, author.name, content)]
              && db.nextId == old(db.nextId) + 1
    ensures db.users == old(db.users) && db.codeExecutions == old(db.codeExecutions)
    ensures db.snippets == old(db.snippets) && db.stars == old(db.stars)
  {
    if identity.None? {
      return Failure(NotAuthenticated);
    }
    var user := FindUser(db.users, identity.value.subject);
    if user.None? {
      return Failure(UserNotFound);
    }
    var commentId := db.nextId;
    db.snippetComments := db.snippetComments +
      [Comment(commentId, now, snippetId, identity.value.subject, user.value.name, content)];
    db.nextId := db.nextId + 1;
    r := Success(commentId);
  }

  /** deleteComment: only the comment's author may delete it. */
  method DeleteComment(db: Database, identity: Option<Identity>, commentId: Id) returns (r: Outcome<Error>)
    requires db.Valid()
    modifies db
    ensures db.Valid()
    ensures identity.None? ==> r == Fail(NotAuthenticated) && unchanged(db)
    ensures identity.Some? && GetComment(old(db.snippetComments), commentId).None? ==>
              r == Fail(CommentNotFound) && unchanged(db)
    ensures identity.Some? && GetComment(old(db.snippetComments), commentId).Some? &&
            GetComment(old(db.snippetComments), commentId).value.userId != identity.value.subject ==>
              r == Fail(NotAuthorizedToDeleteComment) && unchanged(db)
    ensures identity.Some? && GetComment(old(db.snippetComments), commentId).Some? &&
            GetComment(old(db.snippetComments), commentId).value.userId == identity.value.subject ==>
              && r == Pass
              && db.snippetComments == DropComments(old(db.snippetComments), {commentId})
    ensures db.users == old(db.users) && db.codeExecutions == old(db.codeExecutions)
    ensures db.snippets == old(db.snippets) && db.stars == old(db.stars) && db.nextId == old(db.nextId)
  {
    if identity.None? {
      return Fail(NotAuthenticated);
    }
    var comment := GetComment(db.snippetComments, commentId);
    if comment.None? {
      return Fail(CommentNotFound);
    }
    if comment.value.userId != identity.value.subject {
      return Fail(NotAuthorizedToDeleteComment);
    }
    DropCommentsOrdered(db.snippetComments, {commentId}, db.nextId);
    db.snippetComments := DropComments(db.snippetComments, {commentId});
    r := Pass;
  }

  /** Deleting a comment removes that comment and keeps every other one. */
  lemma DeleteCommentKeepsOthers(comments: seq<Comment>, commentId: Id)
    ensures forall c :: c in DropComments(comments, {commentId}) <==> c in comments && c.id != commentId
    ensures GetComment(DropComments(comments, {commentId}), commentId).None?
  {
  }

  // ---------------------------------------------------------------------
  // Queries
  // ---------------------------------------------------------------------

  /** getSnippets: every snippet, newest first. */
  function GetSnippets(snippets: seq<Snippet>): (r: seq<Snippet>)
    ensures |r| == |snippets| && forall sn :: sn in r <==> sn in snippets
    ensures SnippetIdsAscending(snippets) ==>
              forall i, j :: 0 <= i < j < |r| ==> r[i].id > r[j].id
  {
    NewestFirst(snippets)
  }

  /** getSnippetById: the snippet, or "Snippet not found". */
  function GetSnippetById(snippets: seq<Snippet>, snippetId: Id): (r: Result<Snippet, Error>)
    ensures r.Success? ==> r.value in snippets && r.value.id == snippetId
    ensures r.Failure? <==> forall sn :: sn in snippets ==> sn.id != snippetId
    ensures r.Failure? ==> r.error == SnippetNotFound
  {
    match GetSnippet(snippets, snippetId)
    case Some(sn) => Success(sn)
    case None => Failure(SnippetNotFound)
  }

  /** getComments: the comments on one snippet and no others, newest first. */
  function GetComments(comments: seq<Comment>, snippetId: Id): (r: seq<Comment>)
    ensures forall c :: c in r <==> c in comments && c.snippetId == snippetId
    ensures CommentIdsAscending(comments) ==>
              forall i, j :: 0 <= i < j < |r| ==> r[i].id > r[j].id
  {
    var on := CommentsOn(comments, snippetId);
    var r := NewestFirst(on);
    assert CommentIdsAscending(comments) ==> CommentIdsAscending(on) by {
      if CommentIdsAscending(comments) { CommentsOnAscending(comments, snippetId); }
    }
    r
  }

  /** Filtering keeps the table's order, so ids still ascend. */
  lemma {:induction false} CommentsOnAscending(comments: seq<Comment>, snippetId: Id)
    requires CommentIdsAscending(comments)
    ensures CommentIdsAscending(CommentsOn(comments, snippetId))
  {
    if comments != [] {
      var rest := comments[1..];
      CommentsOnAscending(rest, snippetId);
      var r' := CommentsOn(rest, snippetId);
      if comments[0].snippetId == snippetId {
        forall x | x in r' ensures comments[0].id < x.id {
          var k :| 0 <= k < |rest| && rest[k] == x;
          assert comments[k + 1] == x;
        }
        ConsCommentsAscending(comments[0], r');
      }
    }
  }

  lemma ConsCommentsAscending(x: Comment, xs: seq<Comment>)
    requires CommentIdsAscending(xs)
    requires forall y :: y in xs ==> x.id < y.id
    ensures CommentIdsAscending([x] + xs)
  {
    var r := [x] + xs;
    forall i, j | 0 <= i < j < |r| ensures r[i].id < r[j].id {
      assert r[j] == xs[j - 1];
      if i == 0 {
        assert xs[j - 1] in xs;
      } else {
        assert r[i] == xs[i - 1];
      }
    }
  }
}
