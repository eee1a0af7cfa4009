/**
  get_image_paths: the names of a directory listing that end with one of the allowed
  extensions, each joined to the directory, in listing order. The listing itself is an
  input; its order is whatever the file system reports.
*/
module AssetPaths {

  /** The default `allowed_extensions` of get_image_paths; note there is no dot in them. */
  const DefaultExtensions: seq<string> := ["jpg", "png", "jpeg"]

  predicate EndsWith(s: string, suffix: string) {
    |suffix| <= |s| && s[|s| - |suffix|..] == suffix
  }

  /** `s.endswith(suffixes)` for a tuple of suffixes: one of them is a suffix of `s`. */
  predicate EndsWithAny(s: string, suffixes: seq<string>) {
    exists i :: 0 <= i < |suffixes| && EndsWith(s, suffixes[i])
  }

  /** `os.path.join(directory, name)` on POSIX. */
  function Join(directory: string, name: string): (r: string)
    ensures EndsWith(r, name)
  {
    if |name| > 0 && name[0] == '/' then name
    else if directory == [] || directory[|directory| - 1] == '/' then directory + name
    else directory + "/" + name
  }

  /** The comprehension of get_image_paths over the listing `names`. */
  function ImagePaths(directory: string, names: seq<string>, extensions: seq<string>): (r: seq<string>)
    ensures |r| <= |names|
  {
    if names == [] then []
    else
      (if EndsWithAny(names[0], extensions) then [Join(directory, names[0])] else [])
        + ImagePaths(directory, names[1..], extensions)
  }

  /**
    The filter keeps listing order: the paths of a concatenated listing are the paths of the
    first part followed by those of the second.
  */
  lemma {:induction false} ImagePathsAppend(directory: string, a: seq<string>, b: seq<string>,
                                            extensions: seq<string>)
    ensures ImagePaths(directory, a + b, extensions)
      == ImagePaths(directory, a, extensions) + ImagePaths(directory, b, extensions)
    decreases |a|
  {
    if a != [] {
      assert (a + b)[0] == a[0];
      assert (a + b)[1..] == a[1..] + b;
      ImagePathsAppend(directory, a[1..], b, extensions);
    } else {
      assert a + b == b;
    }
  }

  /**
    Exactly the names with an allowed extension are kept: each such name's path is in the
    result, and every path in the result is the path of such a name.
  */
  lemma {:induction false} ImagePathsExact(directory: string, names: seq<string>, extensions: seq<string>)
    ensures forall i :: 0 <= i < |names| && EndsWithAny(names[i], extensions) ==>
      Join(directory, names[i]) in ImagePaths(directory, names, extensions)
    ensures forall p :: p in ImagePaths(directory, names, extensions) ==>
      exists i :: 0 <= i < |names| && EndsWithAny(names[i], extensions) && p == Join(directory, names[i])
    decreases |names|
  {
    if names != [] {
      var rest := names[1..];
      ImagePathsExact(directory, rest, extensions);
      forall i | 0 <= i < |names| && EndsWithAny(names[i], extensions)
        ensures Join(directory, names[i]) in ImagePaths(directory, names, extensions)
      {
        if i > 0 {
          assert names[i] == rest[i - 1];
        }
      }
      forall p | p in ImagePaths(directory, names, extensions)
        ensures exists i :: 0 <= i < |names| && EndsWithAny(names[i], extensions) && p == Join(directory, names[i])
      {
        if p !in ImagePaths(directory, rest, extensions) {
          assert EndsWithAny(names[0], extensions) && p == Join(directory, names[0]);
        } else {
          var j :| 0 <= j < |rest| && EndsWithAny(rest[j], extensions) && p == Join(directory, rest[j]);
          assert names[j + 1] == rest[j];
        }
      }
    }
  }

  lemma EndsWithTrans(s: string, t: string, u: string)
    requires EndsWith(s, t) && EndsWith(t, u)
    ensures EndsWith(s, u)
  {
    assert s[|s| - |u|..] == s[|s| - |t|..][|t| - |u|..];
  }

  /** Every returned path itself ends with one of the allowed extensions. */
  lemma {:induction false} ImagePathsKeepExtension(directory: string, names: seq<string>, extensions: seq<string>)
    ensures forall p :: p in ImagePaths(directory, names, extensions) ==> EndsWithAny(p, extensions)
  {
    ImagePathsExact(directory, names, extensions);
    forall p | p in ImagePaths(directory, names, extensions)
      ensures EndsWithAny(p, extensions)
    {
      var i :| 0 <= i < |names| && EndsWithAny(names[i], extensions) && p == Join(directory, names[i]);
      var e :| 0 <= e < |extensions| && EndsWith(names[i], extensions[e]);
      EndsWithTrans(p, names[i], extensions[e]);
    }
  }

  /**
    The default test is a plain suffix test: a name without a dot passes, and so do the
    usual ".png" and ".jpeg" names.
  */
  lemma DefaultExtensionsAccept()
    ensures EndsWithAny("aries.png", DefaultExtensions)
    ensures EndsWithAny("leo.jpeg", DefaultExtensions)
    ensures EndsWithAny("leojpg", DefaultExtensions)
  {
    assert EndsWith("aries.png", DefaultExtensions[1]);
    assert EndsWith("leo.jpeg", DefaultExtensions[2]);
    assert EndsWith("leojpg", DefaultExtensions[0]);
  }

  /** The test is case-sensitive, and other extensions are refused. */
  lemma DefaultExtensionsRefuse()
    ensures !EndsWithAny("virgo.JPG", DefaultExtensions)
    ensures !EndsWithAny("notes.txt", DefaultExtensions)
  {
    var upper, text := "virgo.JPG", "notes.txt";
    assert upper[|upper| - 1] == 'G' && text[|text| - 1] == 't';
    forall i | 0 <= i < |DefaultExtensions|
      ensures !EndsWith(upper, DefaultExtensions[i]) && !EndsWith(text, DefaultExtensions[i])
    {
      var e := DefaultExtensions[i];
      assert e[|e| - 1] == 'g';
    }
  }
}
