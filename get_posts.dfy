/** The operations of the post index. The build-time glob map is an explicit
    input: the sequence of `(path, module)` entries in iteration order. */
module GetPosts {
  import opened Wrappers
  import opened Posts
  import opened PostSort

  /** The slug both loops compute for a loaded entry. */
  function SlugOf<C>(e: Entry<C>): string
    requires e.1.Some?
  {
    EffectiveSlug(FrontMatterOf(e.1.value), e.0)
  }

  /** `getAllPosts` keeps an entry whose module loaded and whose slug is not empty. */
  predicate Kept<C>(e: Entry<C>) {
    e.1.Some? && SlugOf(e) != ""
  }

  /** The post `getAllPosts` pushes for a kept entry. */
  function PostOf<C>(e: Entry<C>): Post
    requires Kept(e)
  {
    ToPost(FrontMatterOf(e.1.value), SlugOf(e))
  }

  /** The posts of the kept entries in iteration order, before sorting. */
  function Collected<C>(entries: seq<Entry<C>>): (posts: seq<Post>)
    ensures |posts| <= |entries|
    ensures forall i :: 0 <= i < |posts| ==> Normalised(posts[i])
  {
    if entries == [] then []
    else
      var init := Collected(entries[..|entries| - 1]);
      var last := entries[|entries| - 1];
      if Kept(last) then init + [PostOf(last)] else init
  }

  /** The positions of the elements of `s` that satisfy `keep`, in increasing order. */
  function Positions<T>(s: seq<T>, keep: T -> bool): (idx: seq<nat>)
    ensures forall j :: 0 <= j < |idx| ==> idx[j] < |s|
    ensures forall j, k :: 0 <= j < k < |idx| ==> idx[j] < idx[k]
    ensures forall i :: 0 <= i < |s| ==> (keep(s[i]) <==> i in idx)
  {
    if s == [] then []
    else
      var init := s[..|s| - 1];
      var idx := Positions(init, keep);
      assert forall i :: 0 <= i < |init| ==> init[i] == s[i];
      if keep(s[|s| - 1]) then idx + [|s| - 1] else idx
  }

  /** The positions of the kept entries, in increasing order. */
  function KeptIndices<C>(entries: seq<Entry<C>>): (idx: seq<nat>)
    ensures forall j :: 0 <= j < |idx| ==> idx[j] < |entries|
    ensures forall j, k :: 0 <= j < k < |idx| ==> idx[j] < idx[k]
    ensures forall i :: 0 <= i < |entries| ==> (Kept(entries[i]) <==> i in idx)
  {
    Positions(entries, Kept)
  }

  /** The collected posts are exactly the kept entries, mapped, in order:
      no loaded module with a slug is dropped and no other is kept. */
  lemma {:induction false} CollectedIsFilter<C>(entries: seq<Entry<C>>)
    ensures |Collected(entries)| == |KeptIndices(entries)|
    ensures forall j :: 0 <= j < |KeptIndices(entries)| ==>
      Kept(entries[KeptIndices(entries)[j]]) && Collected(entries)[j] == PostOf(entries[KeptIndices(entries)[j]])
  {
    if entries != [] {
      var n := |entries| - 1;
      var init, last := entries[..n], entries[n];
      CollectedIsFilter(init);
      var idx0, posts0 := KeptIndices(init), Collected(init);
      var idx, posts := KeptIndices(entries), Collected(entries);
      assert idx == if Kept(last) then idx0 + [n] else idx0;
      assert posts == if Kept(last) then posts0 + [PostOf(last)] else posts0;
      forall j | 0 <= j < |idx|
        ensures Kept(entries[idx[j]]) && posts[j] == PostOf(entries[idx[j]])
      {
        if j < |idx0| {
          assert entries[idx0[j]] == init[idx0[j]];
        }
      }
    }
  }

  /** The result of `getAllPosts`: the collected posts, newest first. */
  function AllPosts<C>(entries: seq<Entry<C>>, dateKey: string -> int): (posts: seq<Post>)
    ensures |posts| == |KeptIndices(entries)|
    ensures multiset(posts) == multiset(Collected(entries))
    ensures NewestFirst(posts, dateKey)
  {
    CollectedIsFilter(entries);
    SortNewestFirst(Collected(entries), dateKey)
  }

  /** `posts.map((post) => post.slug)`. */
  function SlugsOf(posts: seq<Post>): (slugs: seq<string>)
    ensures |slugs| == |posts|
    ensures forall i :: 0 <= i < |posts| ==> slugs[i] == posts[i].slug
  {
    if posts == [] then [] else [posts[0].slug] + SlugsOf(posts[1..])
  }

  /** A loaded entry whose slug is `slug`: what `getPostBySlug` looks for. */
  predicate Matches<C>(e: Entry<C>, slug: string) {
    e.1.Some? && SlugOf(e) == slug
  }

  /** The slug of a collected post is non-empty and belongs to a loaded entry. */
  lemma CollectedSlugHasEntry<C>(entries: seq<Entry<C>>, s: string, j: int)
    requires 0 <= j < |Collected(entries)| && Collected(entries)[j].slug == s
    ensures s != "" && exists i :: 0 <= i < |entries| && Matches(entries[i], s)
  {
    CollectedIsFilter(entries);
    var i := KeptIndices(entries)[j];
    assert Matches(entries[i], s);
  }

  /** Every listed post is one of the collected posts. */
  lemma ListedPostIsCollected<C>(entries: seq<Entry<C>>, dateKey: string -> int, k: int)
    requires 0 <= k < |AllPosts(entries, dateKey)|
    ensures AllPosts(entries, dateKey)[k] in Collected(entries)
  {
    assert AllPosts(entries, dateKey)[k] in multiset(Collected(entries));
  }

  /** A listed slug is not empty and belongs to a loaded entry. */
  lemma ListedSlugHasEntry<C>(entries: seq<Entry<C>>, dateKey: string -> int, s: string)
    requires s in SlugsOf(AllPosts(entries, dateKey))
    ensures s != "" && exists i :: 0 <= i < |entries| && Matches(entries[i], s)
  {
    var posts := AllPosts(entries, dateKey);
    var collected := Collected(entries);
    var slugs := SlugsOf(posts);
    var k :| 0 <= k < |slugs| && slugs[k] == s;
    ListedPostIsCollected(entries, dateKey, k);
    var j :| 0 <= j < |collected| && collected[j] == posts[k];
    CollectedSlugHasEntry(entries, s, j);
  }

  /** A loaded entry with a non-empty slug has that slug listed. */
  lemma EntrySlugIsListed<C>(entries: seq<Entry<C>>, dateKey: string -> int, i: int)
    requires 0 <= i < |entries| && Kept(entries[i])
    ensures SlugOf(entries[i]) in SlugsOf(AllPosts(entries, dateKey))
  {
    var posts := AllPosts(entries, dateKey);
    var collected := Collected(entries);
    var idx := KeptIndices(entries);
    var j :| 0 <= j < |idx| && idx[j] == i;
    CollectedIsFilter(entries);
    assert collected[j] in multiset(posts);
    var k :| 0 <= k < |posts| && posts[k] == collected[j];
    assert SlugsOf(posts)[k] == SlugOf(entries[i]);
  }

  /** A slug is listed exactly when it is not empty and some loaded entry has it. */
  lemma ListedSlugs<C>(entries: seq<Entry<C>>, dateKey: string -> int, s: string)
    ensures s in SlugsOf(AllPosts(entries, dateKey)) <==>
      s != "" && exists i :: 0 <= i < |entries| && Matches(entries[i], s)
  {
    if s in SlugsOf(AllPosts(entries, dateKey)) {
      ListedSlugHasEntry(entries, dateKey, s);
    } else if s != "" {
      forall i | 0 <= i < |entries| && Matches(entries[i], s)
        ensures false
      {
        EntrySlugIsListed(entries, dateKey, i);
      }
    }
  }

  /** Every listed post is normalised, and there is one per kept entry. */
  lemma AllPostsNormalised<C>(entries: seq<Entry<C>>, dateKey: string -> int)
    ensures |AllPosts(entries, dateKey)| == |KeptIndices(entries)|
    ensures forall i :: 0 <= i < |AllPosts(entries, dateKey)| ==> Normalised(AllPosts(entries, dateKey)[i])
  {
    var posts := AllPosts(entries, dateKey);
    var collected := Collected(entries);
    CollectedIsFilter(entries);
    forall i | 0 <= i < |posts|
      ensures Normalised(posts[i])
    {
      assert posts[i] in multiset(collected);
    }
  }

  /** `getAllPosts()`: one normalised post per kept entry, newest first. */
  method GetAllPosts<C>(entries: seq<Entry<C>>, dateKey: string -> int) returns (posts: seq<Post>)
    ensures posts == AllPosts(entries, dateKey)
    ensures |posts| == |KeptIndices(entries)|
    ensures multiset(posts) == multiset(Collected(entries))
    ensures NewestFirst(posts, dateKey)
    ensures forall i :: 0 <= i < |posts| ==> Normalised(posts[i])
  {
    var collected: seq<Post> := [];
    for i := 0 to |entries|
      invariant collected == Collected(entries[..i])
    {
      assert entries[..i + 1][..i] == entries[..i];
      var (filePath, loaded) := entries[i];
      if loaded.None? {
        continue;
      }
      var frontmatter := FrontMatterOf(loaded.value);
      var fileName := PostPaths.FileName(filePath);
      var slug := OrElse(frontmatter.slug, fileName);
      if slug == "" {
        continue;
      }
      collected := collected + [ToPost(frontmatter, slug)];
    }
    assert entries[..|entries|] == entries;
    posts := SortNewestFirst(collected, dateKey);
    AllPostsNormalised(entries, dateKey);
  }

  /** The position of the first loaded entry whose slug is `slug`, or
      `|entries|` when there is none. */
  function FirstMatch<C>(entries: seq<Entry<C>>, slug: string): (k: nat)
    ensures k <= |entries|
    ensures forall j :: 0 <= j < k ==> !Matches(entries[j], slug)
    ensures k < |entries| ==> Matches(entries[k], slug)
  {
    if entries == [] || Matches(entries[0], slug) then 0
    else
      var k := FirstMatch(entries[1..], slug);
      assert forall j :: 0 <= j < k ==> entries[1..][j] == entries[j + 1];
      1 + k
  }

  /** The first match is the only index with no match before it. */
  lemma FirstMatchIsFirst<C>(entries: seq<Entry<C>>, slug: string, i: nat)
    requires i <= |entries|
    requires forall j :: 0 <= j < i ==> !Matches(entries[j], slug)
    requires i < |entries| ==> Matches(entries[i], slug)
    ensures FirstMatch(entries, slug) == i
  {
  }

  /** What `getPostBySlug` returns for a matching entry: its front matter
      (or `{}`), its content and its slug. */
  function DetailOf<C>(e: Entry<C>): (d: PostDetail<C>)
    requires e.1.Some?
    ensures d.content == e.1.value.content
    ensures e.1.value.frontmatter.Some? ==> d.frontmatter == e.1.value.frontmatter.value
    ensures e.1.value.frontmatter.None? ==> d.frontmatter == EMPTY_FRONT_MATTER
    ensures Matches(e, d.slug)
  {
    PostDetail(FrontMatterOf(e.1.value), e.1.value.content, SlugOf(e))
  }

  /** The result of `getPostBySlug(slug)`. */
  function PostBySlug<C>(entries: seq<Entry<C>>, slug: string): (r: Option<PostDetail<C>>)
    ensures r.None? <==> forall i :: 0 <= i < |entries| ==> !Matches(entries[i], slug)
    ensures r.Some? ==> r.value.slug == slug
  {
    var k := FirstMatch(entries, slug);
    if k < |entries| then Some(DetailOf(entries[k])) else None
  }

  /** `getPostBySlug(slug)`: the first loaded entry, in iteration order, whose
      slug is `slug`, with its front matter and content passed through. */
  method GetPostBySlug<C>(entries: seq<Entry<C>>, slug: string) returns (r: Option<PostDetail<C>>)
    ensures r == PostBySlug(entries, slug)
    ensures r.None? <==> forall i :: 0 <= i < |entries| ==> !Matches(entries[i], slug)
    ensures r.Some? ==> r.value.slug == slug && exists i ::
      && 0 <= i < |entries|
      && Matches(entries[i], slug)
      && (forall j :: 0 <= j < i ==> !Matches(entries[j], slug))
      && r.value == DetailOf(entries[i])
  {
    for i := 0 to |entries|
      invariant forall j :: 0 <= j < i ==> !Matches(entries[j], slug)
    {
      var (filePath, loaded) := entries[i];
      if loaded.None? {
        continue;
      }
      var frontmatter := FrontMatterOf(loaded.value);
      var fileName := PostPaths.FileName(filePath);
      var fileSlug := OrElse(frontmatter.slug, fileName);
      assert fileSlug == SlugOf(entries[i]);
      if fileSlug == slug {
        r := Some(PostDetail(frontmatter, loaded.value.content, fileSlug));
        assert r.value == DetailOf(entries[i]);
        FirstMatchIsFirst(entries, slug, i);
        return;
      }
    }
    FirstMatchIsFirst(entries, slug, |entries|);
    return None;
  }

  /** `getAllPostSlugs()`: the slugs of `getAllPosts()`, in its order. None is
      empty, and a non-empty slug is listed exactly when a lookup finds it. */
  method GetAllPostSlugs<C>(entries: seq<Entry<C>>, dateKey: string -> int) returns (slugs: seq<string>)
    ensures slugs == SlugsOf(AllPosts(entries, dateKey))
    ensures forall s :: s in slugs ==> s != ""
    ensures forall s :: s != "" ==> (s in slugs <==> PostBySlug(entries, s).Some?)
  {
    var posts := GetAllPosts(entries, dateKey);
    slugs := SlugsOf(posts);
    forall s | s != ""
      ensures s in slugs <==> PostBySlug(entries, s).Some?
    {
      LookupAgreesWithListing(entries, dateKey, s);
    }
  }

  /** For a non-empty slug, a lookup succeeds exactly when the slug is listed. */
  lemma LookupAgreesWithListing<C>(entries: seq<Entry<C>>, dateKey: string -> int, s: string)
    requires s != ""
    ensures PostBySlug(entries, s).Some? <==> s in SlugsOf(AllPosts(entries, dateKey))
  {
    ListedSlugs(entries, dateKey, s);
  }

  /** The empty query is the exception: a loaded module without a slug is
      never listed, yet `getPostBySlug("")` returns it. */
  lemma EmptyQueryDivergence<C>(entries: seq<Entry<C>>, dateKey: string -> int, i: int)
    requires 0 <= i < |entries| && entries[i].1.Some? && SlugOf(entries[i]) == ""
    ensures PostBySlug(entries, "").Some?
    ensures "" !in SlugsOf(AllPosts(entries, dateKey))
  {
    ListedSlugs(entries, dateKey, "");
  }

  /** A lone `b.md` with no front matter: nothing is listed, yet the empty
      query finds it. */
  lemma EmptyQueryExample<C>(content: C, dateKey: string -> int)
    ensures AllPosts([("b.md", Some(MarkdownModule(None, content)))], dateKey) == []
    ensures PostBySlug([("b.md", Some(MarkdownModule(None, content)))], "")
         == Some(PostDetail(EMPTY_FRONT_MATTER, content, ""))
  {
    var entries: seq<Entry<C>> := [("b.md", Some(MarkdownModule(None, content)))];
    PostPaths.NoFileNameExamples();
    assert entries[..0] == [];
    assert !Kept(entries[0]);
  }

  /** Two kept entries are collected in iteration order. */
  lemma CollectedPair<C>(e0: Entry<C>, e1: Entry<C>)
    requires Kept(e0) && Kept(e1)
    ensures Collected([e0, e1]) == [PostOf(e0), PostOf(e1)]
  {
    assert Collected([e0]) == [PostOf(e0)] by {
      assert [e0][..0] == [];
    }
    assert [e0, e1][..1] == [e0];
  }

  /** An entry whose slug comes from its file name `b.md`. */
  lemma FileNamedEntry<C>(date: string, content: C)
    ensures Kept(("../content/posts/b.md",
      Some(MarkdownModule(Some(FrontMatter(None, None, Some(date), None, None, None)), content))))
    ensures PostOf(("../content/posts/b.md",
      Some(MarkdownModule(Some(FrontMatter(None, None, Some(date), None, None, None)), content))))
      == Post("", "", OrElse(Some(date), ""), DEFAULT_READ_TIME, DEFAULT_IMAGE, "b", "/posts/b")
  {
    PostPaths.FileNameMatches("../content/posts/b.md", "../content/posts", "b");
    assert POSTS_ROUTE + "b" == "/posts/b";
  }

  /** An entry whose slug `a` comes from its front matter. */
  lemma SluggedEntry<C>(date: string, content: C)
    ensures Kept(("../content/posts/first.md",
      Some(MarkdownModule(Some(FrontMatter(None, None, Some(date), None, None, Some("a"))), content))))
    ensures PostOf(("../content/posts/first.md",
      Some(MarkdownModule(Some(FrontMatter(None, None, Some(date), None, None, Some("a"))), content))))
      == Post("", "", OrElse(Some(date), ""), DEFAULT_READ_TIME, DEFAULT_IMAGE, "a", "/posts/a")
  {
    assert POSTS_ROUTE + "a" == "/posts/a";
  }

  /** Two posts in ascending date order are swapped. */
  lemma SortPair(older: Post, newer: Post, dateKey: string -> int)
    requires dateKey(newer.date) > dateKey(older.date)
    ensures SortNewestFirst([older, newer], dateKey) == [newer, older]
  {
    assert [older, newer][1..] == [newer];
    assert [newer][1..] == [];
  }

  /** A post with a front-matter slug and an older date, and a newer one that
      takes its slug from its file name, are listed newer first. */
  lemma ListingExample<C>(first: C, second: C, dateKey: string -> int)
    requires dateKey("2024-06-01") > dateKey("2024-01-01")
    ensures
      var e0: Entry<C> := ("../content/posts/first.md",
        Some(MarkdownModule(Some(FrontMatter(None, None, Some("2024-01-01"), None, None, Some("a"))), first)));
      var e1: Entry<C> := ("../content/posts/b.md",
        Some(MarkdownModule(Some(FrontMatter(None, None, Some("2024-06-01"), None, None, None)), second)));
      AllPosts([e0, e1], dateKey)
        == [Post("", "", "2024-06-01", DEFAULT_READ_TIME, DEFAULT_IMAGE, "b", "/posts/b"),
            Post("", "", "2024-01-01", DEFAULT_READ_TIME, DEFAULT_IMAGE, "a", "/posts/a")]
  {
    var e0: Entry<C> :=
      ("../content/posts/first.md",
       Some(MarkdownModule(Some(FrontMatter(None, None, Some("2024-01-01"), None, None, Some("a"))), first)));
    var e1: Entry<C> :=
      ("../content/posts/b.md",
       Some(MarkdownModule(Some(FrontMatter(None, None, Some("2024-06-01"), None, None, None)), second)));
    var a := Post("", "", "2024-01-01", DEFAULT_READ_TIME, DEFAULT_IMAGE, "a", "/posts/a");
    var b := Post("", "", "2024-06-01", DEFAULT_READ_TIME, DEFAULT_IMAGE, "b", "/posts/b");
    SluggedEntry("2024-01-01", first);
    FileNamedEntry("2024-06-01", second);
    assert PostOf(e1) == b;
    CollectedPair(e0, e1);
    assert Collected([e0, e1]) == [a, b];
    SortPair(a, b, dateKey);
    assert AllPosts([e0, e1], dateKey) == SortNewestFirst(Collected([e0, e1]), dateKey);
  }
}
