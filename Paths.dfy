/**
 * Path handling of compile.py: mingw_fixpath, which turns a Windows path into
 * the form MINGW's bash expects, and the lookup of a code's source file among
 * the matches of a recursive directory search.
 */
module Paths {
  import opened Wrappers
  import opened PyStr

  predicate IsUpper(c: char) {
    'A' <= c <= 'Z'
  }

  function Lower(c: char): (l: char)
    requires IsUpper(c)
    ensures 'a' <= l <= 'z'
  {
    (c as int + 32) as char
  }

  /** Position i starts a line of s: the start of the text (when b says so) or the character after a '\n'. */
  predicate LineStart(s: string, b: bool, i: nat)
    requires i < |s|
  {
    if i == 0 then b else s[i - 1] == '\n'
  }

  /** A match of the multi-line pattern `^[A-Z]:` at position i. */
  predicate DriveAt(s: string, b: bool, i: nat)
    requires i < |s|
  {
    LineStart(s, b, i) && i + 1 < |s| && IsUpper(s[i]) && s[i + 1] == ':'
  }

  /**
   * `re.sub(r'^([A-Z]):', lambda m: f'/{m.group(1).lower()}', s, flags=re.MULTILINE)`,
   * scanning left to right; b says whether the scan stands at the start of a line.
   */
  function SubDrives(s: string, b: bool): (r: string)
    ensures |r| == |s|
    decreases |s|
  {
    if s == [] then []
    else if b && |s| >= 2 && IsUpper(s[0]) && s[1] == ':' then ['/', Lower(s[0])] + SubDrives(s[2..], false)
    else [s[0]] + SubDrives(s[1..], s[0] == '\n')
  }

  /** The substitution character by character: each drive letter at a line start becomes '/' and its lower case. */
  lemma {:induction false} SubDrivesPointwise(s: string, b: bool)
    ensures forall i :: 0 <= i < |s| ==>
      SubDrives(s, b)[i] ==
        if DriveAt(s, b, i) then '/'
        else if i > 0 && DriveAt(s, b, i - 1) then Lower(s[i - 1])
        else s[i]
    decreases |s|
  {
    if s != [] {
      var r := SubDrives(s, b);
      if b && |s| >= 2 && IsUpper(s[0]) && s[1] == ':' {
        var t := s[2..];
        SubDrivesPointwise(t, false);
        forall i | 2 <= i < |s|
          ensures r[i] == if DriveAt(s, b, i) then '/' else if DriveAt(s, b, i - 1) then Lower(s[i - 1]) else s[i]
        {
          assert r[i] == SubDrives(t, false)[i - 2];
          assert t[i - 2] == s[i];
          assert DriveAt(s, b, i) == DriveAt(t, false, i - 2);
          if i > 2 {
            assert DriveAt(s, b, i - 1) == DriveAt(t, false, i - 3);
            assert t[i - 3] == s[i - 1];
          }
        }
      } else {
        var t := s[1..];
        SubDrivesPointwise(t, s[0] == '\n');
        forall i | 1 <= i < |s|
          ensures r[i] == if DriveAt(s, b, i) then '/' else if DriveAt(s, b, i - 1) then Lower(s[i - 1]) else s[i]
        {
          assert r[i] == SubDrives(t, s[0] == '\n')[i - 1];
          assert t[i - 1] == s[i];
          assert DriveAt(s, b, i) == DriveAt(t, s[0] == '\n', i - 1);
          if i > 1 {
            assert DriveAt(s, b, i - 1) == DriveAt(t, s[0] == '\n', i - 2);
          }
        }
      }
    }
  }

  /** mingw_fixpath: on MINGW, drive prefixes at line starts become `/<letter>` and every '\' becomes '/'. */
  function MingwFixpath(path: string, isMingw: bool): string {
    if isMingw then ReplaceChar(SubDrives(path, true), '\\', '/') else path
  }

  /** The result has the path's length, and on MINGW no backslash and no drive prefix at any line start. */
  lemma {:induction false} MingwFixpathShape(path: string, isMingw: bool)
    ensures |MingwFixpath(path, isMingw)| == |path|
    ensures isMingw ==> var t := MingwFixpath(path, true);
      && (forall i :: 0 <= i < |t| ==> t[i] != '\\')
      && (forall i :: 0 <= i < |t| ==> !DriveAt(t, true, i))
    ensures !isMingw ==> MingwFixpath(path, isMingw) == path
  {
    if isMingw {
      var u := SubDrives(path, true);
      var t := ReplaceChar(u, '\\', '/');
      SubDrivesPointwise(path, true);
      forall i | 0 <= i < |t| ensures !DriveAt(t, true, i) {
        if DriveAt(path, true, i) {
          assert t[i] == '/';
        } else if i > 0 && DriveAt(path, true, i - 1) {
          assert t[i] == Lower(path[i - 1]);
        } else {
          assert u[i] == path[i];
          if i + 1 < |path| && !DriveAt(path, true, i + 1) {
            assert u[i + 1] == path[i + 1];
          }
          if i > 1 && DriveAt(path, true, i - 2) {
            assert t[i - 1] == Lower(path[i - 2]);
          } else if i > 0 {
            assert u[i - 1] == path[i - 1];
          }
        }
      }
    }
  }

  /** A text without drive prefixes at line starts goes through the substitution unchanged. */
  lemma {:induction false} SubDrivesNoMatch(s: string)
    requires forall i :: 0 <= i < |s| ==> !DriveAt(s, true, i)
    ensures SubDrives(s, true) == s
  {
    SubDrivesPointwise(s, true);
  }

  /** Fixing a fixed path changes nothing. */
  lemma {:induction false} MingwFixpathIdempotent(path: string, isMingw: bool)
    ensures MingwFixpath(MingwFixpath(path, isMingw), isMingw) == MingwFixpath(path, isMingw)
  {
    if isMingw {
      var t := MingwFixpath(path, true);
      MingwFixpathShape(path, true);
      SubDrivesNoMatch(t);
      assert ReplaceChar(t, '\\', '/') == t;
    }
  }

  lemma {:induction false} MingwFixpathExample()
    ensures MingwFixpath("C:\\x", true) == "/c/x"
  {
    assert SubDrives("x", false) == "x";
    assert SubDrives("\\x", false) == "\\x";
    assert SubDrives("C:\\x", true) == "/c\\x";
  }

  /* ------------------------------------------------- source resolution */

  /** One match of `srcdir.rglob(f'{file}.c')`: its resolved path and whether it is a regular file. */
  datatype Candidate = Candidate(path: string, isFile: bool)

  /**
   * The loop over the matches for a code's file: a second match is a
   * duplicate, a match that is not a file is an error, and no match at all is
   * not-found.
   */
  function ResolveSource(file: string, srcdir: string, matches: seq<Candidate>): (r: Result<string, string>)
    ensures r.Success? <==> |matches| == 1 && matches[0].isFile
    ensures r.Success? ==> r.value == matches[0].path
  {
    if matches == [] then
      Failure("ERROR: \"" + file + ".c\" does not exist anywhere under \"" + srcdir + "\"")
    else if !matches[0].isFile then
      Failure("ERROR: \"" + matches[0].path + "\" is not a file")
    else if |matches| >= 2 then
      Failure("ERROR: Duplicate source files for \"" + file + ".c\"")
    else
      Success(matches[0].path)
  }
}
