/** The file name a post takes from its path: what the pattern
    `/\/([^/]+)\.md$/` captures, or the empty string when it does not match. */
module PostPaths {
  import opened Wrappers

  /** `path` is `dir/name.md` for a non-empty `name` without a slash: the
      shape the pattern matches, with `name` the captured group. */
  predicate IsPostPath(path: string, dir: string, name: string) {
    name != "" && '/' !in name && path == dir + "/" + name + ".md"
  }

  /** The index of the last '/' in `s`, if there is one. */
  function LastSlash(s: string): (r: Option<nat>)
    ensures r.None? ==> '/' !in s
    ensures r.Some? ==> r.value < |s| && s[r.value] == '/' && '/' !in s[r.value + 1..]
  {
    if s == [] then None
    else if s[|s| - 1] == '/' then Some(|s| - 1)
    else
      var r := LastSlash(s[..|s| - 1]);
      assert r.Some? ==> s[r.value + 1..] == s[..|s| - 1][r.value + 1..] + [s[|s| - 1]];
      r
  }

  /** The captured group of `/\/([^/]+)\.md$/`, or "" when the path does not
      match. The pattern needs a trailing ".md"; since neither "[^/]+" nor
      ".md" contains a slash, the slash it starts with is the last slash of
      the path, and the group is everything between that slash and the
      trailing ".md", which must not be empty. */
  function FileName(path: string): (name: string)
    ensures name != "" ==> |name| + 4 <= |path| && IsPostPath(path, path[..|path| - |name| - 4], name)
  {
    if |path| < 3 || path[|path| - 3..] != ".md" then ""
    else
      var stem := path[..|path| - 3];
      match LastSlash(stem)
      case None => ""
      case Some(i) =>
        assert path == path[..i] + "/" + stem[i + 1..] + ".md";
        stem[i + 1..]
  }

  lemma {:induction false} LastSlashAfter(dir: string, tail: string)
    requires '/' !in tail
    ensures LastSlash(dir + "/" + tail) == Some(|dir|)
  {
    var s := dir + "/" + tail;
    if tail != [] {
      assert s[..|s| - 1] == dir + "/" + tail[..|tail| - 1];
      assert s[|s| - 1] == tail[|tail| - 1];
      LastSlashAfter(dir, tail[..|tail| - 1]);
    }
  }

  /** Every path of the matched shape yields exactly its captured name. */
  lemma FileNameMatches(path: string, dir: string, name: string)
    requires IsPostPath(path, dir, name)
    ensures FileName(path) == name
  {
    assert path[|path| - 3..] == ".md";
    var stem := path[..|path| - 3];
    assert stem == dir + "/" + name;
    LastSlashAfter(dir, name);
    assert stem[|dir| + 1..] == name;
  }

  /** The name is empty exactly when the path has no `dir/name.md` shape. */
  lemma FileNameEmpty(path: string)
    ensures FileName(path) == "" <==> forall dir, name :: !IsPostPath(path, dir, name)
  {
    forall dir, name | IsPostPath(path, dir, name)
      ensures FileName(path) == name
    {
      FileNameMatches(path, dir, name);
    }
  }

  /** A matched path yields its name, with only one trailing ".md" removed. */
  lemma FileNameExamples()
    ensures FileName("../content/posts/docker-basics.md") == "docker-basics"
    ensures FileName("a/b.md") == "b"
    ensures FileName("a/x.md.md") == "x.md"
  {
    assert "../content/posts/docker-basics.md" == "../content/posts" + "/" + "docker-basics" + ".md";
    FileNameMatches("../content/posts/docker-basics.md", "../content/posts", "docker-basics");
    assert "a/b.md" == "a" + "/" + "b" + ".md";
    FileNameMatches("a/b.md", "a", "b");
    assert "a/x.md.md" == "a" + "/" + "x.md" + ".md";
    FileNameMatches("a/x.md.md", "a", "x.md");
  }

  /** No slash before the name, an empty name, or no ".md" ending gives "". */
  lemma NoFileNameExamples()
    ensures FileName("b.md") == ""
    ensures FileName("a/.md") == ""
    ensures FileName("a/b.txt") == ""
  {
    assert "b.md"[..1] == "b";
    assert "b"[..0] == [];
    assert "a/.md"[..2] == "a/";
    assert "a/b.txt"[4..] == "txt";
  }
}
