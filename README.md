# Post index of a static blog, in Dafny

This project models the post index of an Astro blog (`src/utils/getPosts.ts`).
The index takes the markdown modules the build loaded from
`content/posts/*.md` and provides three operations:

- `getAllPosts` turns them into normalised `Post` summaries, newest first.
- `getPostBySlug` finds one module by its slug.
- `getAllPostSlugs` lists the slugs of `getAllPosts`.

Modules of the model:

- `Wrappers`: the `Option` type.
- `PostPaths`: the file name the pattern `/\/([^/]+)\.md$/` captures from a
  path (`FileName`), together with a declarative description of the paths
  it matches (`IsPostPath`: `dir/name.md` with a non-empty, slash-free `name`).
- `Posts`: the front matter, the loaded module, `Post` and the lookup
  result `PostDetail`. It also holds the JavaScript `||` defaulting
  (`OrElse`, `Defaulted`), the effective slug rule and the record a post
  becomes (`ToPost`).
- `PostSort`: `posts.sort((a, b) => dateB - dateA)` as a stable insertion
  sort, newest first, over an abstract `dateKey`.
- `GetPosts`: the three operations and the lemmas that relate them.
  - `GetAllPosts` is a method with the source's loop and its skips. It is
    proved equal to the function `AllPosts`.
  - `GetPostBySlug` is a linear search with an early return. It is proved
    equal to the function `PostBySlug`.
  - `GetAllPostSlugs` maps the posts to their slugs.

The build-time glob map is an explicit input: a sequence of
`(path, Option<MarkdownModule<C>>)` entries in the map's iteration order.
`None` stands for a module that did not load. The type parameter `C` is the
module's `Content` component, which the index passes through unread.
`new Date(s).getTime()` is the parameter `dateKey: string -> int`.

Some behaviour of the code worth knowing:

- An entry with no front-matter slug and no extractable file name is never
  listed. Yet `getPostBySlug("")` still returns it, because the lookup never
  rejects an empty slug. `EmptyQueryDivergence` proves this for every input,
  and `EmptyQueryExample` shows it on a lone `b.md` entry.
- The file name needs a `/` before it and a trailing `.md`, and it loses only
  one `.md`. `b.md` gives `""` and `a/x.md.md` gives `x.md`.
- Two modules with the same slug give two posts. Nothing de-duplicates them.
- Where a post with an unparseable date lands in the listing is not
  specified (see `PostSort.SortNewestFirst` under "Left out").

## Model

| member | source | states |
|---|---|---|
| `PostPaths.FileName` | src/utils/getPosts.ts:45-46 | a non-empty file name is always the slash-free `name` of a `dir/name.md` path |
| `PostPaths.FileNameMatches` | src/utils/getPosts.ts:45-46 | every `dir/name.md` path with a non-empty, slash-free `name` yields exactly `name` |
| `PostPaths.FileNameEmpty` | src/utils/getPosts.ts:45-46 | the file name is `''` exactly when the path has no `dir/name.md` shape |
| `PostPaths.FileNameExamples` | src/utils/getPosts.ts:43-46 | `../content/posts/docker-basics.md` gives `docker-basics`, `a/b.md` gives `b`, `a/x.md.md` gives `x.md` |
| `PostPaths.NoFileNameExamples` | src/utils/getPosts.ts:45-46 | `b.md` (no slash), `a/.md` (empty name) and `a/b.txt` (no `.md`) give `''` |
| `Posts.EffectiveSlugRule` | src/utils/getPosts.ts:41-49 | a truthy front-matter slug wins, otherwise the path's name is used, and the slug is empty exactly when neither exists |
| `Posts.FrontMatterOf` | src/utils/getPosts.ts:41 | a present front matter is used unchanged; a missing one acts as `{}`, in which no field is truthy |
| `Posts.EffectiveSlug` | src/utils/getPosts.ts:45-49 | a truthy front-matter slug is the slug; otherwise a non-empty slug is the `name` of a `dir/name.md` path; the slug is empty exactly when the front-matter slug is not truthy and the path has no file name |
| `Posts.ToPost` | src/utils/getPosts.ts:56-64 | truthy front-matter values are copied; others default to `''`, `"5 min read"` or `"/assets/images/posts/post1.jpg"`; `href == "/posts/" + slug`; slug, read time and image are non-empty |
| `PostSort.SortNewestFirst` | src/utils/getPosts.ts:68-72 | the sorted posts are a permutation of the input with adjacent date keys non-increasing |
| `PostSort.Insert` | src/utils/getPosts.ts:68-72 | inserting one post adds exactly that post to the multiset of posts and grows the list by one |
| `PostSort.InsertKeepsOrder` | src/utils/getPosts.ts:68-72 | inserting a post into a newest-first list keeps it newest first |
| `PostSort.NewestFirstPairwise` | src/utils/getPosts.ts:67-72 | in a sorted listing every earlier post is at least as new as every later one |
| `PostSort.SortIsStable` | src/utils/getPosts.ts:68-72 | posts with equal date keys keep their relative iteration order |
| `GetPosts.Collected` | src/utils/getPosts.ts:32-65 | every post the loop pushes is normalised, and there are no more posts than entries |
| `GetPosts.KeptIndices` | src/utils/getPosts.ts:35-54 | an entry is kept exactly when its module loaded and its effective slug is non-empty |
| `GetPosts.CollectedIsFilter` | src/utils/getPosts.ts:32-65 | the pushed posts are exactly the kept entries, mapped, in iteration order; no other entry is dropped |
| `GetPosts.AllPostsNormalised` | src/utils/getPosts.ts:29-75 | `getAllPosts` has one post per kept entry, each with a non-empty slug and `href == "/posts/" + slug` |
| `GetPosts.AllPosts` | src/utils/getPosts.ts:29-75 | the listing has one post per kept entry, is a permutation of the pushed posts and is newest first |
| `GetPosts.GetAllPosts` | src/utils/getPosts.ts:29-75 | the loop with its skips and the sort return a newest-first permutation of the kept, mapped entries, all normalised |
| `GetPosts.SlugsOf` | src/utils/getPosts.ts:123 | the slug list has the posts' length and element `i` is `posts[i].slug` |
| `GetPosts.ListedSlugHasEntry` | src/utils/getPosts.ts:49-54 | a listed slug is non-empty and is the effective slug of some loaded entry |
| `GetPosts.EntrySlugIsListed` | src/utils/getPosts.ts:49-64 | the slug of every kept entry is listed |
| `GetPosts.ListedSlugs` | src/utils/getPosts.ts:49-54 | a slug is listed if and only if it is non-empty and some loaded entry has it |
| `GetPosts.FirstMatch` | src/utils/getPosts.ts:93-107 | the index found is the first loaded entry whose effective slug equals the query, or the end if none does |
| `GetPosts.DetailOf` | src/utils/getPosts.ts:100-112 | the found detail passes the content through, carries the front matter (or `{}` when missing) and the entry's effective slug |
| `GetPosts.PostBySlug` | src/utils/getPosts.ts:93-116 | the lookup is absent if and only if no loaded entry matches, and a found detail carries the queried slug |
| `GetPosts.GetPostBySlug` | src/utils/getPosts.ts:81-117 | the scan returns the first matching loaded entry with its front matter (or `{}`) and content passed through, and null iff none matches |
| `GetPosts.GetAllPostSlugs` | src/utils/getPosts.ts:122-124 | the slugs of `getAllPosts` in order; none is empty, and a non-empty slug is listed iff `getPostBySlug` finds it |
| `GetPosts.LookupAgreesWithListing` | src/utils/getPosts.ts:105-107 | for a non-empty slug, the lookup succeeds if and only if the slug is listed |
| `GetPosts.EmptyQueryDivergence` | src/utils/getPosts.ts:105-107 | a loaded entry with an empty effective slug makes `getPostBySlug("")` succeed, yet `""` is never listed |
| `GetPosts.EmptyQueryExample` | src/utils/getPosts.ts:100-112 | a lone `b.md` without front matter is not listed, but the empty query returns it with `{}` as front matter |
| `GetPosts.ListingExample` | src/utils/getPosts.ts:56-74 | a newer file-named post and an older front-matter-slug post are listed newer first, with defaults and hrefs filled in |

## Left out

- The `import.meta.glob` eager loading (src/utils/getPosts.ts:3-13) is framework I/O. It is replaced by the input sequence of entries in iteration order. The model does not reproduce JavaScript's key order for integer-like keys, which post paths never are.
- The `console.warn` diagnostics for unloaded modules and missing slugs are logging only and have no effect on results.
- The `Content` component (`module.default`) is an opaque type parameter that is passed through.
- `new Date(...).getTime()` is a library call that returns a float or NaN. It is replaced by the abstract, total integer `dateKey`.
- `PostSort.SortNewestFirst`: newest-first order and stability (`NewestFirst`, `SortIsStable`) are what the engine guarantees only when every post's date parses. A post without a date gets `new Date('')`, which is NaN, so `dateB - dateA` is NaN and the comparator is inconsistent; ECMAScript then leaves the order of the whole array implementation-defined, and one such post can unorder the list. The model's `dateKey` is total, so this case is not covered.
- `PostSort.SortNewestFirst`: the engine sorts the array in place. The model returns a new sorted sequence instead, and stability is proved for this model's sort, not for a specific engine.
- Front-matter values are taken to be strings, as their declared type says. A YAML parser that produces a non-string value, such as a date object, is not modelled.
- The regular expression `/\/([^/]+)\.md$/` is modelled only as the extraction function `PostPaths.FileName`, not by a regex engine.
