/** The data of the post index: the front matter of a loaded markdown module,
    the normalised `Post` summary built from it, and the slug rule both
    `getAllPosts` and `getPostBySlug` apply. */
module Posts {
  import opened Wrappers
  import PostPaths

  /** The optional front-matter strings of one markdown file. */
  datatype FrontMatter = FrontMatter(
    title: Option<string>,
    description: Option<string>,
    date: Option<string>,
    readTime: Option<string>,
    image: Option<string>,
    slug: Option<string>)

  /** The `{}` a module without front matter falls back to. */
  const EMPTY_FRONT_MATTER: FrontMatter := FrontMatter(None, None, None, None, None, None)

  /** A loaded markdown module; `C` is its rendered `Content` component, which
      the index never inspects. */
  datatype MarkdownModule<C> = MarkdownModule(frontmatter: Option<FrontMatter>, content: C)

  /** One entry of the glob map in iteration order: the file path and the
      module, or `None` when the module did not load. */
  type Entry<C> = (string, Option<MarkdownModule<C>>)

  /** The summary of one post that listing pages show. */
  datatype Post = Post(
    title: string,
    description: string,
    date: string,
    readTime: string,
    image: string,
    slug: string,
    href: string)

  /** What a lookup by slug returns to the post page. */
  datatype PostDetail<C> = PostDetail(frontmatter: FrontMatter, content: C, slug: string)

  const DEFAULT_READ_TIME: string := "5 min read"
  const DEFAULT_IMAGE: string := "/assets/images/posts/post1.jpg"
  const POSTS_ROUTE: string := "/posts/"

  /** A front-matter value JavaScript treats as true: present and non-empty. */
  predicate Truthy(value: Option<string>) {
    value.Some? && value.value != ""
  }

  /** `value || fallback` on an optional string. */
  function OrElse(value: Option<string>, fallback: string): string {
    if Truthy(value) then value.value else fallback
  }

  /** `field` holds the front-matter `value` when that is truthy and
      `fallback` otherwise. */
  predicate Defaulted(value: Option<string>, field: string, fallback: string) {
    (Truthy(value) ==> field == value.value) && (!Truthy(value) ==> field == fallback)
  }

  /** `module.frontmatter || {}`. */
  function FrontMatterOf<C>(m: MarkdownModule<C>): (fm: FrontMatter)
    ensures m.frontmatter.Some? ==> fm == m.frontmatter.value
    ensures m.frontmatter.None? ==>
      !Truthy(fm.title) && !Truthy(fm.description) && !Truthy(fm.date) &&
      !Truthy(fm.readTime) && !Truthy(fm.image) && !Truthy(fm.slug)
  {
    if m.frontmatter.Some? then m.frontmatter.value else EMPTY_FRONT_MATTER
  }

  /** `frontmatter.slug || fileName`, with the file name taken from the path. */
  function EffectiveSlug(fm: FrontMatter, path: string): (slug: string)
    ensures Truthy(fm.slug) ==> slug == fm.slug.value
    ensures !Truthy(fm.slug) && slug != "" ==>
      |slug| + 4 <= |path| && PostPaths.IsPostPath(path, path[..|path| - |slug| - 4], slug)
    ensures slug == "" <==> !Truthy(fm.slug) && PostPaths.FileName(path) == ""
  {
    OrElse(fm.slug, PostPaths.FileName(path))
  }

  /** The slug rule: a truthy front-matter slug wins; otherwise the slug is
      the name of a `dir/name.md` path; and it is empty exactly when there is
      neither. */
  lemma EffectiveSlugRule(fm: FrontMatter, path: string)
    ensures Truthy(fm.slug) ==> EffectiveSlug(fm, path) == fm.slug.value
    ensures !Truthy(fm.slug) ==>
      forall dir, name :: PostPaths.IsPostPath(path, dir, name) ==> EffectiveSlug(fm, path) == name
    ensures EffectiveSlug(fm, path) == "" <==>
      !Truthy(fm.slug) && forall dir, name :: !PostPaths.IsPostPath(path, dir, name)
  {
    PostPaths.FileNameEmpty(path);
    forall dir, name | PostPaths.IsPostPath(path, dir, name)
      ensures PostPaths.FileName(path) == name
    {
      PostPaths.FileNameMatches(path, dir, name);
    }
  }

  /** A post has a slug, its route, and never an empty read time or image. */
  predicate Normalised(p: Post) {
    p.slug != "" && p.href == POSTS_ROUTE + p.slug && p.readTime != "" && p.image != ""
  }

  /** The record `getAllPosts` pushes for a module with front matter `fm`
      and a non-empty slug. */
  function ToPost(fm: FrontMatter, slug: string): (p: Post)
    requires slug != ""
    ensures Normalised(p) && p.slug == slug
    ensures Defaulted(fm.title, p.title, "")
    ensures Defaulted(fm.description, p.description, "")
    ensures Defaulted(fm.date, p.date, "")
    ensures Defaulted(fm.readTime, p.readTime, DEFAULT_READ_TIME)
    ensures Defaulted(fm.image, p.image, DEFAULT_IMAGE)
  {
    Post(
      OrElse(fm.title, ""),
      OrElse(fm.description, ""),
      OrElse(fm.date, ""),
      OrElse(fm.readTime, DEFAULT_READ_TIME),
      OrElse(fm.image, DEFAULT_IMAGE),
      slug,
      POSTS_ROUTE + slug)
  }
}
