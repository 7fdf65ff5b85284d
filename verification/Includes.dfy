/** `expand` of tools/object_oracle/object_oracle.py: includes put in place, and circles among them reported. */
module Includes {
  import opened Sorting

  type Key = string

  /** A line of a file: text (a commented include is text as well), or an include of a resolved path. */
  datatype Line = Text(text: string) | Include(target: Key)

  type Files = map<Key, seq<Line>>

  datatype Problem = Circular(key: Key) | Missing(key: Key, line: nat)

  /** A line of the expansion: its file and number. */
  datatype Placed = Placed(key: Key, line: nat, text: string)

  datatype Expansion = Expansion(out: seq<Placed>, problems: seq<Problem>)

  function Joined(e: Expansion, f: Expansion): Expansion {
    Expansion(e.out + f.out, e.problems + f.problems)
  }

  ghost function Elements(stack: seq<Key>): set<Key> {
    set k | k in stack
  }

  /** The files that are not being expanded. */
  ghost function Others(files: Files, stack: seq<Key>): set<Key> {
    files.Keys - Elements(stack)
  }

  lemma OthersShrink(files: Files, stack: seq<Key>, key: Key)
    requires key in files && key !in stack
    ensures |Others(files, stack + [key])| < |Others(files, stack)|
  {
    assert Elements(stack + [key]) == Elements(stack) + {key};
    assert Others(files, stack + [key]) == Others(files, stack) - {key};
  }

  /** The expansion of a file inside the files on the stack. */
  function Expanded(files: Files, key: Key, stack: seq<Key>): Expansion
    requires key in files
    decreases |Others(files, stack)|, 1, 0
  {
    if key in stack then Expansion([], [Circular(key)])
    else
      OthersShrink(files, stack, key);
      ExpandedLines(files, key, stack, |files[key]|)
  }

  /** Of its first n lines. */
  function ExpandedLines(files: Files, key: Key, stack: seq<Key>, n: nat): Expansion
    requires key in files && key !in stack && n <= |files[key]|
    decreases |Others(files, stack)|, 0, n
  {
    if n == 0 then Expansion([], [])
    else
      OthersShrink(files, stack, key);
      Joined(ExpandedLines(files, key, stack, n - 1),
        match files[key][n - 1]
        case Text(text) => Expansion([Placed(key, n, text)], [])
        case Include(target) =>
          if target !in files then Expansion([], [Missing(key, n)])
          else Expanded(files, target, stack + [key]))
  }

  /** The recursion of the source ends: the stack never holds a file twice. */
  method Expand(files: Files, key: Key, stack: seq<Key>) returns (out: seq<Placed>, problems: seq<Problem>)
    requires key in files
    ensures Expansion(out, problems) == Expanded(files, key, stack)
    decreases |Others(files, stack)|
  {
    out, problems := [], [];
    if key in stack {
      return [], [Circular(key)];
    }
    OthersShrink(files, stack, key);
    var lines := files[key];
    var n := 0;
    while n < |lines|
      invariant 0 <= n <= |lines|
      invariant Expansion(out, problems) == ExpandedLines(files, key, stack, n)
    {
      match lines[n] {
        case Text(text) => out := out + [Placed(key, n + 1, text)];
        case Include(target) =>
          if target !in files {
            problems := problems + [Missing(key, n + 1)];
          } else {
            var inner, more := Expand(files, target, stack + [key]);
            out, problems := out + inner, problems + more;
          }
      }
      n := n + 1;
    }
  }

  // ----- circles

  /** File k includes file l. */
  ghost predicate Includes(files: Files, k: Key, l: Key) {
    k in files && l in files && Include(l) in files[k]
  }

  /** Every file on the path includes the next. */
  ghost predicate IsPath(files: Files, path: seq<Key>) {
    && path != []
    && (forall i :: 0 <= i < |path| ==> path[i] in files)
    && (forall i :: 0 < i < |path| ==> Includes(files, path[i - 1], path[i]))
  }

  /** The path comes back, with its last file, to one that it has passed; before that it passes none twice. */
  ghost predicate ComesBack(files: Files, path: seq<Key>) {
    && IsPath(files, path)
    && Distinct(path[..|path| - 1])
    && path[|path| - 1] in path[..|path| - 1]
  }

  ghost predicate Reports(e: Expansion, k: Key) {
    Circular(k) in e.problems
  }

  lemma PathExtends(files: Files, path: seq<Key>, k: Key)
    requires IsPath(files, path) && Includes(files, path[|path| - 1], k)
    ensures IsPath(files, path + [k])
  {
  }

  /** A report shows a path that comes back. */
  lemma {:induction false} ReportedPath(files: Files, key: Key, stack: seq<Key>, k: Key) returns (path: seq<Key>)
    requires key in files && IsPath(files, stack + [key]) && Distinct(stack) && Reports(Expanded(files, key, stack), k)
    ensures ComesBack(files, path) && path[|path| - 1] == k && stack + [key] <= path
    decreases |Others(files, stack)|, 1, 0
  {
    if key in stack {
      path := stack + [key];
      assert path[..|path| - 1] == stack;
    } else {
      OthersShrink(files, stack, key);
      path := ReportedInLines(files, key, stack, |files[key]|, k);
    }
  }

  lemma {:induction false} ReportedInLines(files: Files, key: Key, stack: seq<Key>, n: nat, k: Key)
    returns (path: seq<Key>)
    requires key in files && key !in stack && n <= |files[key]| && Reports(ExpandedLines(files, key, stack, n), k)
    requires IsPath(files, stack + [key]) && Distinct(stack)
    ensures ComesBack(files, path) && path[|path| - 1] == k && stack + [key] <= path
    decreases |Others(files, stack)|, 0, n
  {
    if n > 0 {
      if Reports(ExpandedLines(files, key, stack, n - 1), k) {
        path := ReportedInLines(files, key, stack, n - 1, k);
      } else {
        var target := files[key][n - 1].target;
        assert Includes(files, key, target) by { assert files[key][n - 1] == Include(target); }
        OthersShrink(files, stack, key);
        var more := stack + [key];
        PathExtends(files, more, target);
        path := ReportedPath(files, target, more, k);
      }
    }
  }

  /** A path that comes back is reported, from whichever of its files the expansion stands at. */
  lemma {:induction false} PathIsReported(files: Files, path: seq<Key>, i: nat)
    requires ComesBack(files, path) && i < |path|
    ensures Reports(Expanded(files, path[i], path[..i]), path[|path| - 1])
    decreases |path| - i
  {
    var key, stack := path[i], path[..i];
    if i < |path| - 1 {
      assert key !in stack by {
        assert forall j :: 0 <= j < i ==> path[..|path| - 1][j] == path[j];
        assert path[..|path| - 1][i] == key;
      }
      assert Includes(files, path[(i + 1) - 1], path[i + 1]);
      var n :| 0 <= n < |files[key]| && files[key][n] == Include(path[i + 1]);
      PathIsReported(files, path, i + 1);
      assert path[..i + 1] == stack + [key];
      LineIsReported(files, key, stack, n, |files[key]|, path[|path| - 1]);
    }
  }

  lemma {:induction false} LineIsReported(files: Files, key: Key, stack: seq<Key>, n: nat, m: nat, k: Key)
    requires key in files && key !in stack && n < m <= |files[key]|
    requires files[key][n].Include? && files[key][n].target in files
    requires Reports(Expanded(files, files[key][n].target, stack + [key]), k)
    ensures Reports(ExpandedLines(files, key, stack, m), k)
    decreases m
  {
    if n < m - 1 {
      LineIsReported(files, key, stack, n, m - 1, k);
    }
  }

  ghost predicate InCircle(files: Files, key: Key, path: seq<Key>, k: Key) {
    ComesBack(files, path) && path[0] == key && path[|path| - 1] == k
  }

  /** A circle is reported exactly when the includes of the file lead back to a file that they have passed. */
  lemma CircularIff(files: Files, key: Key, k: Key)
    requires key in files
    ensures Reports(Expanded(files, key, []), k) <==> exists path :: InCircle(files, key, path, k)
  {
    if Reports(Expanded(files, key, []), k) {
      var path := ReportedPath(files, key, [], k);
      assert InCircle(files, key, path, k);
    }
    if path :| InCircle(files, key, path, k) {
      PathIsReported(files, path, 0);
      assert path[..0] == [];
    }
  }
}
