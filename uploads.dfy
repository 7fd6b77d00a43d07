/** The asset name the upload handlers derive from a stored file URL,
    `url.split('/').pop().split('.')[0]`, and the storage paths they destroy. */
module Uploads {

  /** `s.split(c).pop()`: what follows the last `c`, or all of `s` if it has none. */
  function AfterLast(s: string, c: char): string {
    if s == [] then []
    else if s[|s| - 1] == c then []
    else AfterLast(s[..|s| - 1], c) + [s[|s| - 1]]
  }

  /** The result is the longest suffix free of `c`: the character before it,
      if any, is `c`. */
  lemma {:induction false} AfterLastCore(s: string, c: char)
    ensures var r := AfterLast(s, c);
      && |r| <= |s| && r == s[|s| - |r|..] && c !in r
      && (|r| < |s| ==> s[|s| - |r| - 1] == c)
    decreases |s|
  {
    if s != [] && s[|s| - 1] != c {
      var init := s[..|s| - 1];
      AfterLastCore(init, c);
      var r0 := AfterLast(init, c);
      assert init[|init| - |r0|..] + [s[|s| - 1]] == s[|s| - |r0| - 1..];
    }
  }

  /** `s.split(c)[0]`: what precedes the first `c`, or all of `s` if it has none. */
  function BeforeFirst(s: string, c: char): string {
    if s == [] then []
    else if s[0] == c then []
    else [s[0]] + BeforeFirst(s[1..], c)
  }

  /** The result is the longest prefix free of `c`: the character after it,
      if any, is `c`. */
  lemma {:induction false} BeforeFirstCore(s: string, c: char)
    ensures var r := BeforeFirst(s, c);
      && |r| <= |s| && r == s[..|r|] && c !in r
      && (|r| < |s| ==> s[|r|] == c)
    decreases |s|
  {
    if s != [] && s[0] != c {
      BeforeFirstCore(s[1..], c);
    }
  }

  /** The public id of a stored asset: the last path segment up to its
      first dot. It never holds a slash or a dot. */
  function PublicId(url: string): (r: string)
    ensures '/' !in r && '.' !in r
    ensures |r| <= |url|
  {
    AfterLastCore(url, '/');
    BeforeFirstCore(AfterLast(url, '/'), '.');
    BeforeFirst(AfterLast(url, '/'), '.')
  }

  lemma {:induction false} AfterLastOfJoin(prefix: string, name: string, c: char)
    requires c !in name
    ensures AfterLast(prefix + [c] + name, c) == name
    decreases |name|
  {
    var s := prefix + [c] + name;
    if name == [] {
      assert s[|s| - 1] == c;
    } else {
      assert s[..|s| - 1] == prefix + [c] + name[..|name| - 1];
      AfterLastOfJoin(prefix, name[..|name| - 1], c);
      assert name == name[..|name| - 1] + [name[|name| - 1]];
    }
  }

  lemma {:induction false} BeforeFirstOfJoin(name: string, rest: string, c: char)
    requires c !in name
    ensures BeforeFirst(name + [c] + rest, c) == name
    decreases |name|
  {
    var s := name + [c] + rest;
    if name == [] {
      assert s[0] == c;
    } else {
      assert s[1..] == name[1..] + [c] + rest;
      BeforeFirstOfJoin(name[1..], rest, c);
    }
  }

  /** A URL ending in `/<id>.<extension>`, with an id free of slashes and
      dots and an extension free of slashes, gives back that id. */
  lemma PublicIdOfUrl(folder: string, id: string, extension: string)
    requires '/' !in id && '.' !in id && '/' !in extension
    ensures PublicId(folder + "/" + id + "." + extension) == id
  {
    var last := id + "." + extension;
    assert '/' !in last;
    assert folder + "/" + id + "." + extension == folder + ['/'] + last;
    AfterLastOfJoin(folder, last, '/');
    assert last == id + ['.'] + extension;
    BeforeFirstOfJoin(id, extension, '.');
  }

  /** The storage path `cloudinary.uploader.destroy` is called with for an
      old profile picture and for an old resume. */
  function ProfileAsset(url: string): string {
    "campus-connect/profiles/" + PublicId(url)
  }

  function ResumeAsset(url: string): string {
    "campus-connect/resumes/" + PublicId(url)
  }
}
