/** The small part of `std::path` and `str` that both the file-chooser
    callback and `convert_file` rely on: the components of a chosen path,
    string lower-casing, and joining a directory with a file name. */
module Paths {

  datatype Option<T> = None | Some(value: T) {
    /** Rust's `unwrap_or`. */
    function UnwrapOr(default: T): (r: T)
      ensures Some? ==> r == value
      ensures None? ==> r == default
    {
      if Some? then value else default
    }
  }

  /** A chosen file. `text` is the whole path as `to_string_lossy` renders it.
      `parent` is the lossy text of `parent()`, `None` only when `parent()` is
      (a root or an empty path); a bare file name has the parent `""`.
      `stem` and `extension` are what `file_stem()` and `extension()`
      followed by `to_str()` report: `None` when std::path has no such
      component or it is not valid UTF-8. */
  datatype InputPath = InputPath(text: string, parent: Option<string>, stem: Option<string>, extension: Option<string>)

  predicate IsUpper(c: char) { 'A' <= c <= 'Z' }
  predicate IsLowerCase(s: string) { forall i :: 0 <= i < |s| ==> !IsUpper(s[i]) }

  function LowerChar(c: char): (r: char)
    ensures !IsUpper(r)
    ensures !IsUpper(c) ==> r == c
  {
    if IsUpper(c) then (c as int - 'A' as int + 'a' as int) as char else c
  }

  function UpperChar(c: char): (r: char)
    ensures LowerChar(r) == LowerChar(c)
  {
    if 'a' <= c <= 'z' then (c as int - 'a' as int + 'A' as int) as char else c
  }

  /** `to_lowercase`, on the ASCII letters. */
  function Lower(s: string): (r: string)
    ensures |r| == |s|
    ensures forall i :: 0 <= i < |s| ==> r[i] == LowerChar(s[i])
  {
    if s == [] then [] else [LowerChar(s[0])] + Lower(s[1..])
  }

  /** `to_uppercase`, on the ASCII letters; only used to state that case
      does not matter. */
  function Upper(s: string): (r: string)
    ensures |r| == |s|
    ensures forall i :: 0 <= i < |s| ==> r[i] == UpperChar(s[i])
  {
    if s == [] then [] else [UpperChar(s[0])] + Upper(s[1..])
  }

  lemma LowerIsLowerCase(s: string)
    ensures IsLowerCase(Lower(s))
    ensures IsLowerCase(s) <==> Lower(s) == s
  {
    if !IsLowerCase(s) {
      var i :| 0 <= i < |s| && IsUpper(s[i]);
      assert Lower(s)[i] != s[i];
    }
  }

  lemma LowerIdempotent(s: string)
    ensures Lower(Lower(s)) == Lower(s)
  {
    LowerIsLowerCase(Lower(s));
    LowerIsLowerCase(s);
  }

  lemma LowerOfUpper(s: string)
    ensures Lower(Upper(s)) == Lower(s)
  {
  }

  /** The extension the source compares: `extension()`, `""` when there is
      none, lower-cased. */
  function ExtensionOf(p: InputPath): (r: string)
    ensures IsLowerCase(r)
    ensures p.extension.None? ==> r == ""
    ensures p.extension.Some? ==> |r| == |p.extension.value|
    ensures p.extension.Some? ==> forall i :: 0 <= i < |r| ==> r[i] == LowerChar(p.extension.value[i])
  {
    LowerIsLowerCase(p.extension.UnwrapOr(""));
    Lower(p.extension.UnwrapOr(""))
  }

  /** The last component of a `/`-separated path: the longest suffix
      without a separator. */
  function AfterLastSlash(s: string): (r: string)
  {
    if s == [] then []
    else if s[|s| - 1] == '/' then []
    else AfterLastSlash(s[..|s| - 1]) + [s[|s| - 1]]
  }

  /** It is a suffix of the path, holds no separator, and is preceded by one
      unless it is the whole path. */
  lemma {:induction false} AfterLastSlashIsComponent(s: string)
    ensures var r := AfterLastSlash(s);
            |r| <= |s| && r == s[|s| - |r|..] && '/' !in r &&
            (|r| < |s| ==> s[|s| - |r| - 1] == '/')
  {
    if s != [] && s[|s| - 1] != '/' {
      var init := s[..|s| - 1];
      AfterLastSlashIsComponent(init);
      var q, last := AfterLastSlash(init), s[|s| - 1];
      assert AfterLastSlash(s) == q + [last];
      assert s == init + [last];
      assert s[|init| - |q|..] == init[|init| - |q|..] + [last];
      assert '/' !in q + [last];
    }
  }

  lemma {:induction false} AfterLastSlashAppend(dir: string, name: string)
    requires '/' !in name
    ensures AfterLastSlash(dir + name) == AfterLastSlash(dir) + name
    decreases |name|
  {
    if name == [] {
      assert dir + name == dir;
    } else {
      var init, last := name[..|name| - 1], name[|name| - 1];
      var whole := dir + name;
      assert last in name;
      assert whole[|whole| - 1] == last;
      assert whole[..|whole| - 1] == dir + init;
      assert AfterLastSlash(whole) == AfterLastSlash(dir + init) + [last];
      assert '/' !in init by {
        forall c | c in init ensures c in name {
          var k :| 0 <= k < |init| && init[k] == c;
          assert name[k] == c;
        }
      }
      AfterLastSlashAppend(dir, init);
      assert init + [last] == name;
    }
  }

  /** `Path::join` with a relative file name: the name alone when the
      directory is empty, otherwise one `/` between the two. */
  function Join(dir: string, name: string): (r: string)
    ensures r == dir + name || r == dir + "/" + name
    ensures r == dir + name <==> dir == [] || dir[|dir| - 1] == '/'
    ensures |dir| <= |r| && r[..|dir|] == dir
    ensures |dir| + |name| <= |r| <= |dir| + 1 + |name| && r[|r| - |name|..] == name
  {
    if dir == [] || dir[|dir| - 1] == '/' then
      assert (dir + name)[..|dir|] == dir;
      dir + name
    else
      assert (dir + "/" + name)[..|dir|] == dir;
      dir + "/" + name
  }

  /** A joined name with no separator in it is the last component of the
      result: the file lands inside `dir` under exactly that name. */
  lemma JoinKeepsName(dir: string, name: string)
    requires '/' !in name
    ensures AfterLastSlash(Join(dir, name)) == name
  {
    if dir == [] || dir[|dir| - 1] == '/' {
      AfterLastSlashAppend(dir, name);
    } else {
      AfterLastSlashAppend(dir + "/", name);
    }
  }
}
