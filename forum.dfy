/** The forum use cases for posts and topics: the "owner or admin" access
    rule, existence checks before every mutation, and the author-name
    enrichment of listed posts and topics. The repositories are in-memory
    tables and the user service is a directory oracle. */
module Forum {
  import opened Wrappers

  datatype Category = Category(id: int, title: string, description: string)
  datatype Post = Post(id: int, topicId: int, authorId: Option<int>, username: string, content: string, replyTo: Option<int>)
  datatype Topic = Topic(id: int, categoryId: int, title: string, authorId: Option<int>, username: string)

  /** The name shown for an author that is nil or that the user service
      does not know ("deleted user"). */
  const DeletedUser: string := "Удаленный пользователь"
  const AdminRole: string := "admin"

  /** The sentinel and foreign errors `errors.Is` can find in a returned error. */
  datatype Cause = NoRows | CategoryNotFound | TopicNotFound | PostNotFound | Forbidden | UserServiceFailed

  /** An error built by fmt.Errorf: its message text and, when the format
      used %w, the one cause it wraps. */
  datatype ForumError = ForumError(message: string, wrapped: Option<Cause>)

  /** errors.Is(e, c). */
  predicate ErrorIs(e: ForumError, c: Cause)
  {
    e.wrapped == Some(c)
  }

  function Lookup<T>(rows: map<int, T>, id: int): (r: Option<T>)
    ensures r.Some? <==> id in rows
    ensures r.Some? ==> r.value == rows[id]
  {
    if id in rows then Some(rows[id]) else None
  }

  // ---------------------------------------------------------------------
  // Access rule

  /** The ownership rule shared by posts and topics: admins may always
      act; anyone else only on a resource whose author is them, so a
      resource without an author is closed to non-admins. */
  predicate OwnerOrAdmin(authorId: Option<int>, userId: int, role: string)
  {
    role == AdminRole || authorId == Some(userId)
  }

  /** postUsecase.checkAccess over the post lookup. Its errors are plain
      messages: neither wraps PostNotFound nor Forbidden. */
  function PostCheckAccess(post: Option<Post>, userId: int, role: string): (r: Outcome<ForumError>)
    ensures r.Pass? <==> post.Some? && OwnerOrAdmin(post.value.authorId, userId, role)
    ensures r.Fail? ==> r.error.wrapped.None?
  {
    if post.None? then Fail(ForumError("ForumService - PostUsecase - checkAccess - postRepo.GetByID()", None))
    else if role == AdminRole then Pass
    else if post.value.authorId.None? || post.value.authorId.value != userId then
      Fail(ForumError("ForumService - PostUsecase - checkAccess  - postRepo.Update()", None))
    else Pass
  }

  /** topicUsecase.checkAccess over the topic lookup. Existence is checked
      before the role, so a missing topic is TopicNotFound even for an
      admin; a refusal wraps Forbidden. */
  function TopicCheckAccess(topic: Option<Topic>, userId: int, role: string): (r: Outcome<ForumError>)
    ensures r.Pass? <==> topic.Some? && OwnerOrAdmin(topic.value.authorId, userId, role)
    ensures topic.None? ==> r.Fail? && ErrorIs(r.error, TopicNotFound)
    ensures topic.Some? && r.Fail? ==> ErrorIs(r.error, Forbidden)
  {
    if topic.None? then Fail(ForumError("ForumService - TopicUsecase - checkAccess - topicRepo.GetByID()", Some(TopicNotFound)))
    else if role == AdminRole then Pass
    else if topic.value.authorId.None? || topic.value.authorId.value != userId then
      Fail(ForumError("ForumService - TopicUsecase - checkAccess  - topicRepo.Update()", Some(Forbidden)))
    else Pass
  }

  /** postUsecase.checkTopic: a missing topic is a plain message that does
      not wrap TopicNotFound. */
  function CheckTopic(topics: map<int, Topic>, topicId: int): (r: Outcome<ForumError>)
    ensures r.Pass? <==> topicId in topics
    ensures r.Fail? ==> r.error.wrapped.None?
  {
    if topicId in topics then Pass else Fail(ForumError("ForumService - PostUsecase - checkTopic - topicRepo.GetByID()", None))
  }

  /** topicUsecase.checkCategory: a missing category wraps CategoryNotFound. */
  function CheckCategory(categories: map<int, Category>, categoryId: int): (r: Outcome<ForumError>)
    ensures r.Pass? <==> categoryId in categories
    ensures r.Fail? ==> ErrorIs(r.error, CategoryNotFound)
  {
    if categoryId in categories then Pass
    else Fail(ForumError("ForumService - TopicUsecase - checkCategory - categoryRepo.GetByID()", Some(CategoryNotFound)))
  }

  // ---------------------------------------------------------------------
  // The user service

  /** The user service as the forum sees it: the names it knows, and
      whether it answers at all. */
  datatype UserDirectory = UserDirectory(names: map<int, string>, reachable: bool)
  {
    /** GetUsernames: an empty request is answered with an empty map
        without calling the service; otherwise the service answers with the
        names it knows among the requested ids, or fails. */
    function GetUsernames(ids: seq<int>): (r: Result<map<int, string>, Cause>)
      ensures r.Failure? <==> |ids| > 0 && !reachable
      ensures r.Success? ==> forall id :: id in ids ==> (id in r.value <==> id in names)
      ensures r.Success? ==> forall id :: id in r.value ==> id in names && r.value[id] == names[id]
    {
      if |ids| == 0 then Success(map[])
      else if !reachable then Failure(UserServiceFailed)
      else Success(map id | id in ids && id in names :: names[id])
    }

    /** GetUsername: the name of one user, or an error. */
    function GetUsername(id: int): (r: Result<string, Cause>)
      ensures r.Success? <==> reachable && id in names
      ensures r.Success? ==> r.value == names[id]
    {
      if reachable && id in names then Success(names[id]) else Failure(UserServiceFailed)
    }

    /** The name a listed item ends up with when the service answers. */
    function ShownName(authorId: Option<int>): string
    {
      if authorId.Some? && authorId.value in names then names[authorId.value] else DeletedUser
    }
  }

  // ---------------------------------------------------------------------
  // Collecting the author ids

  /** The distinct non-nil author ids of a list, in order of first
      appearance: the reference definition of the collecting loop. */
  function FirstAppearances(authors: seq<Option<int>>): seq<int>
  {
    if |authors| == 0 then []
    else
      var prev := FirstAppearances(authors[..|authors| - 1]);
      var last := authors[|authors| - 1];
      if last.Some? && last.value !in prev then prev + [last.value] else prev
  }

  /** The loop of GetByTopic and GetByCategory that builds authorIDs,
      with `seen` playing the part of authorIDSet. */
  method CollectAuthorIds(authors: seq<Option<int>>) returns (ids: seq<int>)
    ensures ids == FirstAppearances(authors)
  {
    ids := [];
    var seen: set<int> := {};
    var i := 0;
    while i < |authors|
      invariant 0 <= i <= |authors|
      invariant ids == FirstAppearances(authors[..i])
      invariant seen == set x | x in ids
    {
      assert authors[..i + 1][..i] == authors[..i];
      assert authors[..i + 1][i] == authors[i];
      assert FirstAppearances(authors[..i + 1]) ==
        if authors[i].Some? && authors[i].value !in ids then ids + [authors[i].value] else ids;
      assert authors[i].Some? ==> (authors[i].value in seen <==> authors[i].value in ids);
      if authors[i].Some? && authors[i].value !in seen {
        ids := ids + [authors[i].value];
        seen := seen + {authors[i].value};
      }
      i := i + 1;
    }
    assert authors[..i] == authors;
  }

  /** The collected ids are exactly the non-nil authors. */
  lemma {:induction false} FirstAppearancesMembers(authors: seq<Option<int>>, x: int)
    ensures x in FirstAppearances(authors) <==> Some(x) in authors
  {
    if |authors| > 0 {
      var init := authors[..|authors| - 1];
      FirstAppearancesMembers(init, x);
      assert authors == init + [authors[|authors| - 1]];
    }
  }

  predicate Distinct(ids: seq<int>)
  {
    forall i, j :: 0 <= i < j < |ids| ==> ids[i] != ids[j]
  }

  /** No id is collected twice. */
  lemma {:induction false} FirstAppearancesDistinct(authors: seq<Option<int>>)
    ensures Distinct(FirstAppearances(authors))
  {
    if |authors| > 0 {
      var init := authors[..|authors| - 1];
      var last := authors[|authors| - 1];
      FirstAppearancesDistinct(init);
      var prev := FirstAppearances(init);
      if last.Some? && last.value !in prev {
        var ids := prev + [last.value];
        forall i, j | 0 <= i < j < |ids| ensures ids[i] != ids[j] {
          assert ids[i] == prev[i];
          if j == |prev| {
            assert ids[j] == last.value && prev[i] in prev;
          } else {
            assert ids[j] == prev[j];
          }
        }
      }
    }
  }

  /** The index at which an author first occurs in the list. */
  function FirstIndex(authors: seq<Option<int>>, x: int): (k: nat)
    requires Some(x) in authors
    ensures k < |authors| && authors[k] == Some(x)
    ensures forall j :: 0 <= j < k ==> authors[j] != Some(x)
  {
    if authors[0] == Some(x) then 0 else 1 + FirstIndex(authors[1..], x)
  }

  lemma {:induction false} FirstIndexOfExtension(authors: seq<Option<int>>, last: Option<int>, x: int)
    requires Some(x) in authors
    ensures Some(x) in authors + [last]
    ensures FirstIndex(authors + [last], x) == FirstIndex(authors, x)
  {
    var k := FirstIndex(authors, x);
    var ext := authors + [last];
    assert ext[k] == Some(x);
    var k' := FirstIndex(ext, x);
    assert k' <= k;
    assert k <= k';
  }

  /** The ids come in the order in which their authors first appear. */
  lemma {:induction false} FirstAppearancesOrder(authors: seq<Option<int>>)
    ensures var ids := FirstAppearances(authors);
      forall i, j :: 0 <= i < j < |ids| ==>
        Some(ids[i]) in authors && Some(ids[j]) in authors &&
        FirstIndex(authors, ids[i]) < FirstIndex(authors, ids[j])
  {
    if |authors| > 0 {
      var init := authors[..|authors| - 1];
      var last := authors[|authors| - 1];
      assert authors == init + [last];
      FirstAppearancesOrder(init);
      var prev := FirstAppearances(init);
      var ids := FirstAppearances(authors);
      forall i | 0 <= i < |prev|
        ensures Some(prev[i]) in init && Some(prev[i]) in authors
        ensures FirstIndex(authors, prev[i]) == FirstIndex(init, prev[i])
      {
        FirstAppearancesMembers(init, prev[i]);
        FirstIndexOfExtension(init, last, prev[i]);
      }
      if last.Some? && last.value !in prev {
        FirstAppearancesMembers(init, last.value);
        assert Some(last.value) !in init;
        assert FirstIndex(authors, last.value) == |authors| - 1;
        assert ids == prev + [last.value];
      }
    }
  }

  /** The collected list is empty exactly when no item has an author. */
  lemma NoAuthorsNoIds(authors: seq<Option<int>>)
    ensures FirstAppearances(authors) == [] <==> forall i :: 0 <= i < |authors| ==> authors[i].None?
  {
    if FirstAppearances(authors) == [] {
      forall i | 0 <= i < |authors| ensures authors[i].None? {
        if authors[i].Some? {
          FirstAppearancesMembers(authors, authors[i].value);
        }
      }
    } else {
      var x := FirstAppearances(authors)[0];
      FirstAppearancesMembers(authors, x);
    }
  }

  // ---------------------------------------------------------------------
  // Filling in the usernames

  /** The name the filling loop gives an item: nil authors and ids absent
      from the returned map get the "deleted user" name. */
  function DisplayName(authorId: Option<int>, usernames: map<int, string>): string
  {
    if authorId.Some? && authorId.value in usernames then usernames[authorId.value] else DeletedUser
  }

  /** The author column of a listing. Posts and topics are distinct record
      types, and the use cases repeat the same collect-and-fill code for
      each, so the projection is given once per type; everything after it
      works on the shared `seq<Option<int>>`. */
  function PostAuthors(posts: seq<Post>): (authors: seq<Option<int>>)
    ensures |authors| == |posts| && forall i :: 0 <= i < |posts| ==> authors[i] == posts[i].authorId
  {
    seq(|posts|, i requires 0 <= i < |posts| => posts[i].authorId)
  }

  function TopicAuthors(topics: seq<Topic>): (authors: seq<Option<int>>)
    ensures |authors| == |topics| && forall i :: 0 <= i < |topics| ==> authors[i] == topics[i].authorId
  {
    seq(|topics|, i requires 0 <= i < |topics| => topics[i].authorId)
  }

  /** The loop that overwrites posts[i].Username in place. */
  method FillPostUsernames(posts: array<Post>, usernames: map<int, string>)
    modifies posts
    ensures forall i :: 0 <= i < posts.Length ==>
      posts[i] == old(posts[i]).(username := DisplayName(old(posts[i]).authorId, usernames))
  {
    for i := 0 to posts.Length
      invariant forall k :: 0 <= k < i ==> posts[k] == old(posts[k]).(username := DisplayName(old(posts[k]).authorId, usernames))
      invariant forall k :: i <= k < posts.Length ==> posts[k] == old(posts[k])
    {
      if posts[i].authorId.None? {
        posts[i] := posts[i].(username := DeletedUser);
        continue;
      }
      if posts[i].authorId.value in usernames {
        posts[i] := posts[i].(username := usernames[posts[i].authorId.value]);
      } else {
        posts[i] := posts[i].(username := DeletedUser);
      }
    }
  }

  /** The loop that overwrites topics[i].Username in place. */
  method FillTopicUsernames(topics: array<Topic>, usernames: map<int, string>)
    modifies topics
    ensures forall i :: 0 <= i < topics.Length ==>
      topics[i] == old(topics[i]).(username := DisplayName(old(topics[i]).authorId, usernames))
  {
    for i := 0 to topics.Length
      invariant forall k :: 0 <= k < i ==> topics[k] == old(topics[k]).(username := DisplayName(old(topics[k]).authorId, usernames))
      invariant forall k :: i <= k < topics.Length ==> topics[k] == old(topics[k])
    {
      if topics[i].authorId.None? {
        topics[i] := topics[i].(username := DeletedUser);
        continue;
      }
      if topics[i].authorId.value in usernames {
        topics[i] := topics[i].(username := usernames[topics[i].authorId.value]);
      } else {
        topics[i] := topics[i].(username := DeletedUser);
      }
    }
  }

  /** When the names come from the service for the collected ids, every
      item ends up with the service's name for its author, or the
      "deleted user" name. */
  lemma ServiceNamesShown(authors: seq<Option<int>>, users: UserDirectory, i: int)
    requires 0 <= i < |authors|
    requires users.GetUsernames(FirstAppearances(authors)).Success?
    ensures DisplayName(authors[i], users.GetUsernames(FirstAppearances(authors)).value) == users.ShownName(authors[i])
  {
    if authors[i].Some? {
      FirstAppearancesMembers(authors, authors[i].value);
    }
  }

  /** What GetByTopic does with the posts it listed: collect the distinct
      author ids, ask the user service for their names once, and overwrite
      every username in place. An unanswered request yields no list. */
  method EnrichPosts(listed: seq<Post>, users: UserDirectory) returns (r: Result<seq<Post>, Cause>)
    ensures r.Failure? <==> !users.reachable && exists i :: 0 <= i < |listed| && listed[i].authorId.Some?
    ensures r.Failure? ==> r.error == UserServiceFailed
    ensures r.Success? ==>
      |r.value| == |listed| &&
      forall i :: 0 <= i < |listed| ==> r.value[i] == listed[i].(username := users.ShownName(listed[i].authorId))
  {
    var posts := new Post[|listed|](i requires 0 <= i < |listed| => listed[i]);
    assert posts[..] == listed;
    var authorIds := CollectAuthorIds(PostAuthors(posts[..]));
    NoAuthorsNoIds(PostAuthors(listed));
    var usernames := users.GetUsernames(authorIds);
    if usernames.Failure? {
      assert exists i :: 0 <= i < |listed| && listed[i].authorId.Some? by {
        var k :| 0 <= k < |listed| && PostAuthors(listed)[k].Some?;
        assert listed[k].authorId.Some?;
      }
      return Failure(usernames.error);
    }
    FillPostUsernames(posts, usernames.value);
    forall i | 0 <= i < |listed|
      ensures posts[i] == listed[i].(username := users.ShownName(listed[i].authorId))
    {
      ServiceNamesShown(PostAuthors(listed), users, i);
    }
    return Success(posts[..]);
  }

  /** The same step of GetByCategory, for the topics it listed. */
  method EnrichTopics(listed: seq<Topic>, users: UserDirectory) returns (r: Result<seq<Topic>, Cause>)
    ensures r.Failure? <==> !users.reachable && exists i :: 0 <= i < |listed| && listed[i].authorId.Some?
    ensures r.Failure? ==> r.error == UserServiceFailed
    ensures r.Success? ==>
      |r.value| == |listed| &&
      forall i :: 0 <= i < |listed| ==> r.value[i] == listed[i].(username := users.ShownName(listed[i].authorId))
  {
    var topics := new Topic[|listed|](i requires 0 <= i < |listed| => listed[i]);
    assert topics[..] == listed;
    var authorIds := CollectAuthorIds(TopicAuthors(topics[..]));
    NoAuthorsNoIds(TopicAuthors(listed));
    var usernames := users.GetUsernames(authorIds);
    if usernames.Failure? {
      assert exists i :: 0 <= i < |listed| && listed[i].authorId.Some? by {
        var k :| 0 <= k < |listed| && TopicAuthors(listed)[k].Some?;
        assert listed[k].authorId.Some?;
      }
      return Failure(usernames.error);
    }
    FillTopicUsernames(topics, usernames.value);
    forall i | 0 <= i < |listed|
      ensures topics[i] == listed[i].(username := users.ShownName(listed[i].authorId))
    {
      ServiceNamesShown(TopicAuthors(listed), users, i);
    }
    return Success(topics[..]);
  }

  // ---------------------------------------------------------------------
  // The repositories

  /** Rows of a table in ascending id order over [lo, hi). */
  function InIdOrder<T>(rows: map<int, T>, lo: int, hi: int): seq<T>
    decreases hi - lo
  {
    if lo >= hi then [] else (if lo in rows then [rows[lo]] else []) + InIdOrder(rows, lo + 1, hi)
  }

  /** The category, topic and post tables the forum use cases work on. */
  class ForumRepos {
    var categories: map<int, Category>
    var topics: map<int, Topic>
    var posts: map<int, Post>
    var nextTopicId: int
    var nextPostId: int

    ghost predicate Valid()
      reads this
    {
      && 1 <= nextTopicId && 1 <= nextPostId
      && (forall id :: id in topics ==> 1 <= id < nextTopicId && topics[id].id == id)
      && (forall id :: id in posts ==> 1 <= id < nextPostId && posts[id].id == id)
    }

    constructor (categories: map<int, Category>)
      ensures Valid()
      ensures this.categories == categories && topics == map[] && posts == map[]
    {
      this.categories := categories;
      topics := map[];
      posts := map[];
      nextTopicId := 1;
      nextPostId := 1;
    }

    /** postRepo.GetByTopic: the posts of a topic, in id order. */
    function PostsOfTopic(topicId: int): seq<Post>
      reads this
    {
      InIdOrder(map id | id in posts && posts[id].topicId == topicId :: posts[id], 1, nextPostId)
    }

    /** topicRepo.GetByCategory: the topics of a category, in id order. */
    function TopicsOfCategory(categoryId: int): seq<Topic>
      reads this
    {
      InIdOrder(map id | id in topics && topics[id].categoryId == categoryId :: topics[id], 1, nextTopicId)
    }
  }

  class PostUsecase {
    const repos: ForumRepos

    constructor (repos: ForumRepos)
      ensures this.repos == repos
    {
      this.repos := repos;
    }

    /** Checks the topic first; only then stores the post under a fresh id. */
    method Create(post: Post) returns (r: Result<int, ForumError>)
      requires repos.Valid()
      modifies repos
      ensures repos.Valid()
      ensures r.Failure? <==> post.topicId !in old(repos.topics)
      ensures r.Failure? ==> r.error == CheckTopic(old(repos.topics), post.topicId).error
      ensures r.Failure? ==> repos.posts == old(repos.posts) && repos.nextPostId == old(repos.nextPostId)
      ensures r.Success? ==>
        && r.value == old(repos.nextPostId) && r.value !in old(repos.posts)
        && repos.posts == old(repos.posts)[r.value := post.(id := r.value)]
      ensures repos.topics == old(repos.topics) && repos.categories == old(repos.categories)
      ensures repos.nextTopicId == old(repos.nextTopicId)
    {
      var check := CheckTopic(repos.topics, post.topicId);
      if check.Fail? {
        return Failure(check.error);
      }
      var id := repos.nextPostId;
      repos.posts := repos.posts[id := post.(id := id)];
      repos.nextPostId := id + 1;
      return Success(id);
    }

    /** The posts of a topic with their authors' names: a missing topic or
        an unanswered name request yields no list at all. */
    method GetByTopic(topicId: int, users: UserDirectory) returns (r: Result<seq<Post>, ForumError>)
      ensures topicId !in repos.topics ==> r == Failure(CheckTopic(repos.topics, topicId).error)
      ensures topicId in repos.topics ==>
        (r.Failure? <==> !users.reachable && exists i :: 0 <= i < |repos.PostsOfTopic(topicId)| && repos.PostsOfTopic(topicId)[i].authorId.Some?)
      ensures topicId in repos.topics && r.Failure? ==> ErrorIs(r.error, UserServiceFailed)
      ensures r.Success? ==>
        var listed := repos.PostsOfTopic(topicId);
        |r.value| == |listed| &&
        forall i :: 0 <= i < |listed| ==> r.value[i] == listed[i].(username := users.ShownName(listed[i].authorId))
    {
      var check := CheckTopic(repos.topics, topicId);
      if check.Fail? {
        return Failure(check.error);
      }
      var listed := repos.PostsOfTopic(topicId);
      var enriched := EnrichPosts(listed, users);
      if enriched.Failure? {
        assert listed == repos.PostsOfTopic(topicId);
        return Failure(ForumError("ForumService - TopicUsecase  - GetByCategory - userClient.GetUsernames()", Some(enriched.error)));
      }
      return Success(enriched.value);
    }

    /** Changes the content only after checkAccess lets the caller in; on
        any refusal the table is untouched. */
    method Update(postId: int, userId: int, role: string, content: string) returns (r: Outcome<ForumError>)
      requires repos.Valid()
      modifies repos
      ensures repos.Valid()
      ensures r == PostCheckAccess(Lookup(old(repos.posts), postId), userId, role)
      ensures r.Pass? ==> repos.posts == old(repos.posts)[postId := old(repos.posts)[postId].(content := content)]
      ensures r.Fail? ==> repos.posts == old(repos.posts)
      ensures repos.topics == old(repos.topics) && repos.categories == old(repos.categories)
      ensures repos.nextPostId == old(repos.nextPostId) && repos.nextTopicId == old(repos.nextTopicId)
    {
      r := PostCheckAccess(Lookup(repos.posts, postId), userId, role);
      if r.Fail? {
        return;
      }
      repos.posts := repos.posts[postId := repos.posts[postId].(content := content)];
    }

    /** Deletes the post only after checkAccess lets the caller in. */
    method Delete(postId: int, userId: int, role: string) returns (r: Outcome<ForumError>)
      requires repos.Valid()
      modifies repos
      ensures repos.Valid()
      ensures r == PostCheckAccess(Lookup(old(repos.posts), postId), userId, role)
      ensures r.Pass? ==> repos.posts == old(repos.posts) - {postId}
      ensures r.Fail? ==> repos.posts == old(repos.posts)
      ensures repos.topics == old(repos.topics) && repos.categories == old(repos.categories)
      ensures repos.nextPostId == old(repos.nextPostId) && repos.nextTopicId == old(repos.nextTopicId)
    {
      r := PostCheckAccess(Lookup(repos.posts, postId), userId, role);
      if r.Fail? {
        return;
      }
      repos.posts := repos.posts - {postId};
    }
  }

  class TopicUsecase {
    const repos: ForumRepos

    constructor (repos: ForumRepos)
      ensures this.repos == repos
    {
      this.repos := repos;
    }

    /** Checks the category first; a missing one is CategoryNotFound and
        no topic is stored. */
    method Create(topic: Topic) returns (r: Result<int, ForumError>)
      requires repos.Valid()
      modifies repos
      ensures repos.Valid()
      ensures r.Failure? <==> topic.categoryId !in old(repos.categories)
      ensures r.Failure? ==> ErrorIs(r.error, CategoryNotFound)
      ensures r.Failure? ==> repos.topics == old(repos.topics) && repos.nextTopicId == old(repos.nextTopicId)
      ensures r.Success? ==>
        && r.value == old(repos.nextTopicId) && r.value !in old(repos.topics)
        && repos.topics == old(repos.topics)[r.value := topic.(id := r.value)]
      ensures repos.posts == old(repos.posts) && repos.categories == old(repos.categories)
      ensures repos.nextPostId == old(repos.nextPostId)
    {
      var check := CheckCategory(repos.categories, topic.categoryId);
      if check.Fail? {
        return Failure(check.error);
      }
      var id := repos.nextTopicId;
      repos.topics := repos.topics[id := topic.(id := id)];
      repos.nextTopicId := id + 1;
      return Success(id);
    }

    /** One topic with its author's name: a nil author gets the "deleted
        user" name without asking the service; a failed request yields no
        topic. */
    function GetByID(id: int, users: UserDirectory): (r: Result<Topic, ForumError>)
      reads repos
      ensures id !in repos.topics ==> r.Failure? && ErrorIs(r.error, NoRows)
      ensures id in repos.topics && repos.topics[id].authorId.None? ==>
        r == Success(repos.topics[id].(username := DeletedUser))
      ensures id in repos.topics && repos.topics[id].authorId.Some? ==>
        (r.Success? <==> users.reachable && repos.topics[id].authorId.value in users.names)
      ensures r.Success? ==> r.value == repos.topics[id].(username := r.value.username)
      ensures r.Success? && repos.topics[id].authorId.Some? ==> r.value.username == users.names[repos.topics[id].authorId.value]
      ensures r.Failure? && id in repos.topics ==> ErrorIs(r.error, UserServiceFailed)
    {
      if id !in repos.topics then Failure(ForumError("ForumService - TopicUsecase - GetByID - repo.GetByID()", Some(NoRows)))
      else
        var topic := repos.topics[id];
        if topic.authorId.None? then Success(topic.(username := DeletedUser))
        else
          var name := users.GetUsername(topic.authorId.value);
          if name.Failure? then Failure(ForumError("ForumService - TopicUsecase - GetById - userClient.GetUsername()", Some(name.error)))
          else Success(topic.(username := name.value))
    }

    /** The topics of a category with their authors' names. */
    method GetByCategory(categoryId: int, users: UserDirectory) returns (r: Result<seq<Topic>, ForumError>)
      ensures categoryId !in repos.categories ==> r.Failure? && ErrorIs(r.error, CategoryNotFound)
      ensures categoryId in repos.categories ==>
        (r.Failure? <==> !users.reachable && exists i :: 0 <= i < |repos.TopicsOfCategory(categoryId)| && repos.TopicsOfCategory(categoryId)[i].authorId.Some?)
      ensures categoryId in repos.categories && r.Failure? ==> ErrorIs(r.error, UserServiceFailed)
      ensures r.Success? ==>
        var listed := repos.TopicsOfCategory(categoryId);
        |r.value| == |listed| &&
        forall i :: 0 <= i < |listed| ==> r.value[i] == listed[i].(username := users.ShownName(listed[i].authorId))
    {
      var check := CheckCategory(repos.categories, categoryId);
      if check.Fail? {
        return Failure(check.error);
      }
      var listed := repos.TopicsOfCategory(categoryId);
      var enriched := EnrichTopics(listed, users);
      if enriched.Failure? {
        assert listed == repos.TopicsOfCategory(categoryId);
        return Failure(ForumError("ForumService - TopicUsecase  - GetByCategory - userClient.GetUsernames()", Some(enriched.error)));
      }
      return Success(enriched.value);
    }

    /** Changes the title only after checkAccess lets the caller in. */
    method Update(topicId: int, userId: int, role: string, title: string) returns (r: Outcome<ForumError>)
      requires repos.Valid()
      modifies repos
      ensures repos.Valid()
      ensures r == TopicCheckAccess(Lookup(old(repos.topics), topicId), userId, role)
      ensures r.Pass? ==> repos.topics == old(repos.topics)[topicId := old(repos.topics)[topicId].(title := title)]
      ensures r.Fail? ==> repos.topics == old(repos.topics)
      ensures repos.posts == old(repos.posts) && repos.categories == old(repos.categories)
      ensures repos.nextPostId == old(repos.nextPostId) && repos.nextTopicId == old(repos.nextTopicId)
    {
      r := TopicCheckAccess(Lookup(repos.topics, topicId), userId, role);
      if r.Fail? {
        return;
      }
      repos.topics := repos.topics[topicId := repos.topics[topicId].(title := title)];
    }

    /** Deletes the topic only after checkAccess lets the caller in. */
    method Delete(topicId: int, userId: int, role: string) returns (r: Outcome<ForumError>)
      requires repos.Valid()
      modifies repos
      ensures repos.Valid()
      ensures r == TopicCheckAccess(Lookup(old(repos.topics), topicId), userId, role)
      ensures r.Pass? ==> repos.topics == old(repos.topics) - {topicId}
      ensures r.Fail? ==> repos.topics == old(repos.topics)
      ensures repos.posts == old(repos.posts) && repos.categories == old(repos.categories)
      ensures repos.nextPostId == old(repos.nextPostId) && repos.nextTopicId == old(repos.nextTopicId)
    {
      r := TopicCheckAccess(Lookup(repos.topics, topicId), userId, role);
      if r.Fail? {
        return;
      }
      repos.topics := repos.topics - {topicId};
    }
  }
}
