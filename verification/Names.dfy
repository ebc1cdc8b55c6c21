/** File-name cleaning done on both ends of an attachment transfer. */
module Names {
  /** Unicode White_Space, the characters Go's strings.TrimSpace removes. */
  predicate IsSpace(c: char) {
    || '\t' <= c <= '\r' || c == ' ' || c == '\U{85}' || c == '\U{A0}' || c == '\U{1680}'
    || '\U{2000}' <= c <= '\U{200A}' || c == '\U{2028}' || c == '\U{2029}' || c == '\U{202F}'
    || c == '\U{205F}' || c == '\U{3000}'
  }

  function TrimSpace(s: string): string
    decreases |s|
  {
    if s == [] then s
    else if IsSpace(s[0]) then TrimSpace(s[1..])
    else if IsSpace(s[|s| - 1]) then TrimSpace(s[..|s| - 1])
    else s
  }

  /** Nothing is left exactly if there was nothing but white space. */
  lemma {:induction false} TrimmedIsBlankIff(s: string)
    ensures TrimSpace(s) == "" <==> forall k :: 0 <= k < |s| ==> IsSpace(s[k])
    decreases |s|
  {
    if s != [] && IsSpace(s[0]) {
      TrimmedIsBlankIff(s[1..]);
      assert forall k :: 1 <= k < |s| ==> s[k] == s[1..][k - 1];
    } else if s != [] && IsSpace(s[|s| - 1]) {
      assert !IsSpace(s[0]);
      TrimmedIsBlankIff(s[..|s| - 1]);
      assert s[..|s| - 1] != [] ==> s[..|s| - 1][0] == s[0];
    }
  }

  /** White space around what begins and ends with something else is removed, and nothing more. */
  lemma {:induction false} TrimSpaceMeaning(before: string, core: string, after: string)
    requires core != "" && !IsSpace(core[0]) && !IsSpace(core[|core| - 1])
    requires (forall k :: 0 <= k < |before| ==> IsSpace(before[k])) && (forall k :: 0 <= k < |after| ==> IsSpace(after[k]))
    ensures TrimSpace(before + core + after) == core
    decreases |before|, |after|
  {
    var s := before + core + after;
    if before != "" {
      assert s[0] == before[0] && s[1..] == before[1..] + core + after;
      TrimSpaceMeaning(before[1..], core, after);
    } else if after != "" {
      assert s[0] == core[0] && s[|s| - 1] == after[|after| - 1];
      assert s[..|s| - 1] == before + core + after[..|after| - 1];
      TrimSpaceMeaning(before, core, after[..|after| - 1]);
    } else {
      assert s == core;
    }
  }

  function TrimSlashes(s: string): string {
    if s != [] && s[|s| - 1] == '/' then TrimSlashes(s[..|s| - 1]) else s
  }

  function LastElement(s: string): string {
    if s == [] || s[|s| - 1] == '/' then [] else LastElement(s[..|s| - 1]) + [s[|s| - 1]]
  }

  /** filepath.Base on a slash-separated system. */
  function Base(path: string): string {
    if path == "" then "."
    else if LastElement(TrimSlashes(path)) == "" then "/"
    else LastElement(TrimSlashes(path))
  }

  function ReplaceSlashes(s: string): string {
    if s == [] then [] else ReplaceSlashes(s[..|s| - 1]) + (if s[|s| - 1] == '/' then "_" else [s[|s| - 1]])
  }

  function Sanitize(name: string): string {
    var clean := ReplaceSlashes(Base(TrimSpace(name)));
    if clean == "." || clean == "" then "attachment.bin" else clean
  }

  lemma {:induction false} NoSlashLeft(s: string)
    ensures '/' !in ReplaceSlashes(s)
  {
    if s != [] { NoSlashLeft(s[..|s| - 1]); }
  }

  /** A sanitized name is one path element: not empty, not ".", and without a separator. See CleanNamesPass for "..". */
  lemma {:induction false} SanitizedIsElement(name: string)
    ensures Sanitize(name) != "" && Sanitize(name) != "." && '/' !in Sanitize(name)
  {
    NoSlashLeft(Base(TrimSpace(name)));
  }

  /** White space, a dot or nothing is no name; slashes alone name the root, and become "_". */
  lemma {:induction false} NoNameFallsBack(name: string)
    ensures (forall k :: 0 <= k < |name| ==> IsSpace(name[k])) ==> Sanitize(name) == "attachment.bin"
    ensures TrimSpace(name) == "." ==> Sanitize(name) == "attachment.bin"
    ensures TrimSpace(name) == "/" ==> Sanitize(name) == "_"
  {
    TrimmedIsBlankIff(name);
    assert "."[..0] == "" && "/"[..0] == "";
    assert LastElement(".") == "." && ReplaceSlashes(".") == "." && ReplaceSlashes("/") == "_" && TrimSlashes("/") == "";
  }

  /** A name that is already one path element, with no white space around it. */
  predicate Clean(name: string) {
    name != "" && name != "." && '/' !in name && !IsSpace(name[0]) && !IsSpace(name[|name| - 1])
  }

  lemma {:induction false} TrimKeepsTail(dir: string, name: string)
    requires Clean(name)
    ensures exists d :: TrimSpace(dir + "/" + name) == d + "/" + name
    decreases |dir|
  {
    var path := dir + "/" + name;
    assert path[|path| - 1] == name[|name| - 1];
    if dir != [] && IsSpace(dir[0]) {
      assert path[1..] == dir[1..] + "/" + name;
      TrimKeepsTail(dir[1..], name);
    } else {
      assert path[0] == if dir == [] then '/' else dir[0];
      assert TrimSpace(path) == dir + "/" + name;
    }
  }

  lemma {:induction false} LastElementIsTail(d: string, name: string)
    requires '/' !in name
    ensures LastElement(d + "/" + name) == name
  {
    var path := d + "/" + name;
    if name == [] {
      assert path == d + "/";
    } else {
      LastElementIsTail(d, name[..|name| - 1]);
      assert path[..|path| - 1] == d + "/" + name[..|name| - 1];
      assert name == name[..|name| - 1] + [name[|name| - 1]];
    }
  }

  lemma {:induction false} NothingToReplace(name: string)
    requires '/' !in name
    ensures ReplaceSlashes(name) == name
  {
    if name != [] {
      NothingToReplace(name[..|name| - 1]);
      assert name == name[..|name| - 1] + [name[|name| - 1]];
    }
  }

  /** Whatever directory a clean name is given in, only the name is kept. */
  lemma {:induction false} SanitizeKeepsTheName(dir: string, name: string)
    requires Clean(name)
    ensures Sanitize(dir + "/" + name) == name
  {
    TrimKeepsTail(dir, name);
    var d :| TrimSpace(dir + "/" + name) == d + "/" + name;
    var path := d + "/" + name;
    assert path[|path| - 1] == name[|name| - 1] != '/';
    LastElementIsTail(d, name);
    NothingToReplace(name);
  }

  lemma {:induction false} WholeIsLast(name: string)
    requires '/' !in name
    ensures LastElement(name) == name
  {
    if name != [] {
      WholeIsLast(name[..|name| - 1]);
      assert name == name[..|name| - 1] + [name[|name| - 1]];
    }
  }

  /** A clean name passes unchanged; so does "..", which names no file. */
  lemma {:induction false} CleanNamesPass(name: string)
    requires Clean(name)
    ensures Sanitize(name) == name
    ensures Clean("..")
  {
    assert !IsSpace(name[0]) && !IsSpace(name[|name| - 1]);
    assert TrimSpace(name) == name;
    WholeIsLast(name);
    NothingToReplace(name);
    assert name[|name| - 1] in name && name[|name| - 1] != '/';
    assert TrimSlashes(name) == name;
    assert Base(name) == name;
    assert Clean("..") by { assert ".."[0] == '.' && ".."[1] == '.'; }
  }
}
