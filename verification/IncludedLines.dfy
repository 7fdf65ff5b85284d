/**
 What `expand` of tools/object_oracle/object_oracle.py puts out: which lines of which files, in which order;
 and which includes it reports as not found.
 */
module IncludedLines {
  import opened Includes
  import opened Sorting

  // ----- the lines, by their addresses

  /**
   An address names a line of the file, and if that is an include, a line of the included file, and so on
   down to a text; it enters no file twice.
   */
  ghost predicate Leads(files: Files, key: Key, stack: seq<Key>, at: seq<nat>, p: Placed)
    requires key in files
    decreases |at|
  {
    && key !in stack && at != [] && 1 <= at[0] <= |files[key]|
    && match files[key][at[0] - 1]
       case Text(text) => |at| == 1 && p == Placed(key, at[0], text)
       case Include(target) => target in files && Leads(files, target, stack + [key], at[1..], p)
  }

  /** Line by line from the top. */
  predicate Earlier(a: seq<nat>, b: seq<nat>) {
    a != [] && b != [] && (a[0] < b[0] || (a[0] == b[0] && Earlier(a[1..], b[1..])))
  }

  /** out holds the lines with these addresses, in their order, and these are all up to line n. */
  ghost predicate IsListing(files: Files, key: Key, stack: seq<Key>, n: nat, out: seq<Placed>, ats: seq<seq<nat>>)
    requires key in files
  {
    && |ats| == |out|
    && (forall i :: 0 <= i < |ats| ==> Leads(files, key, stack, ats[i], out[i]) && ats[i][0] <= n)
    && (forall i, j :: 0 <= i < j < |ats| ==> Earlier(ats[i], ats[j]))
    && (forall at, p :: Leads(files, key, stack, at, p) && at[0] <= n ==> at in ats)
  }

  function Inside(n: nat, ats: seq<seq<nat>>): (r: seq<seq<nat>>)
    ensures |r| == |ats| && forall i :: 0 <= i < |r| ==> r[i] == [n] + ats[i]
  {
    seq(|ats|, i requires 0 <= i < |ats| => [n] + ats[i])
  }

  lemma {:induction false} FileListing(files: Files, key: Key, stack: seq<Key>) returns (ats: seq<seq<nat>>)
    requires key in files
    ensures IsListing(files, key, stack, |files[key]|, Expanded(files, key, stack).out, ats)
    decreases |Others(files, stack)|, 1, 0
  {
    if key in stack {
      ats := [];
    } else {
      OthersShrink(files, stack, key);
      ats := LinesListing(files, key, stack, |files[key]|);
    }
  }

  lemma {:induction false} LinesListing(files: Files, key: Key, stack: seq<Key>, n: nat) returns (ats: seq<seq<nat>>)
    requires key in files && key !in stack && n <= |files[key]|
    ensures IsListing(files, key, stack, n, ExpandedLines(files, key, stack, n).out, ats)
    decreases |Others(files, stack)|, 0, n
  {
    if n == 0 {
      ats := [];
    } else {
      var front := LinesListing(files, key, stack, n - 1);
      var before := ExpandedLines(files, key, stack, n - 1).out;
      match files[key][n - 1] {
        case Text(text) =>
          ats := front + [[n]];
          TextListing(files, key, stack, n, text, before, front);
        case Include(target) =>
          if target in files {
            OthersShrink(files, stack, key);
            var inner := FileListing(files, target, stack + [key]);
            ats := front + Inside(n, inner);
            IncludeListing(files, key, stack, n, target, before, front, Expanded(files, target, stack + [key]).out,
                           inner);
          } else {
            ats := front;
          }
      }
    }
  }

  lemma TextListing(files: Files, key: Key, stack: seq<Key>, n: nat, text: string, before: seq<Placed>,
                    front: seq<seq<nat>>)
    requires key in files && key !in stack && 1 <= n <= |files[key]| && files[key][n - 1] == Text(text)
    requires IsListing(files, key, stack, n - 1, before, front)
    ensures IsListing(files, key, stack, n, before + [Placed(key, n, text)], front + [[n]])
  {
    var ats := front + [[n]];
    forall at, p | Leads(files, key, stack, at, p) && at[0] <= n ensures at in ats {
      if at[0] == n {
        assert at == [n] && ats[|front|] == at;
      } else {
        assert at in front;
      }
    }
  }

  lemma IncludeListing(files: Files, key: Key, stack: seq<Key>, n: nat, target: Key, before: seq<Placed>,
                       front: seq<seq<nat>>, out: seq<Placed>, inner: seq<seq<nat>>)
    requires key in files && key !in stack && 1 <= n <= |files[key]| && files[key][n - 1] == Include(target)
    requires target in files && IsListing(files, key, stack, n - 1, before, front)
    requires IsListing(files, target, stack + [key], |files[target]|, out, inner)
    ensures IsListing(files, key, stack, n, before + out, front + Inside(n, inner))
  {
    hide Leads, Earlier;
    var ats := front + Inside(n, inner);
    AddressesNotEmpty(files, key, stack, n - 1, before, front);
    OrderedInside(front, inner, n);
    forall i | 0 <= i < |ats| ensures Leads(files, key, stack, ats[i], (before + out)[i]) && ats[i][0] <= n {
      if i >= |front| {
        LeadsInside(files, key, stack, n, target, inner[i - |front|], out[i - |front|]);
      }
    }
    forall at, p | Leads(files, key, stack, at, p) && at[0] <= n ensures at in ats {
      if at[0] == n {
        ReachedInside(files, key, stack, n, target, out, inner, at, p);
        assert at in Inside(n, inner);
      } else {
        assert at in front;
      }
    }
  }

  lemma AddressesNotEmpty(files: Files, key: Key, stack: seq<Key>, n: nat, out: seq<Placed>, ats: seq<seq<nat>>)
    requires key in files && IsListing(files, key, stack, n, out, ats)
    ensures forall i :: 0 <= i < |ats| ==> ats[i] != [] && ats[i][0] <= n
    ensures forall at, p :: Leads(files, key, stack, at, p) ==> at != []
  {
  }

  lemma LeadsInside(files: Files, key: Key, stack: seq<Key>, n: nat, target: Key, at: seq<nat>, p: Placed)
    requires key in files && key !in stack && 1 <= n <= |files[key]| && files[key][n - 1] == Include(target)
    requires target in files && Leads(files, target, stack + [key], at, p)
    ensures Leads(files, key, stack, [n] + at, p)
  {
    assert ([n] + at)[1..] == at;
  }

  lemma OrderedInside(front: seq<seq<nat>>, inner: seq<seq<nat>>, n: nat)
    requires forall i :: 0 <= i < |front| ==> front[i] != [] && front[i][0] < n
    requires forall i, j :: 0 <= i < j < |front| ==> Earlier(front[i], front[j])
    requires forall i, j :: 0 <= i < j < |inner| ==> Earlier(inner[i], inner[j])
    ensures var ats := front + Inside(n, inner);
            forall i, j :: 0 <= i < j < |ats| ==> Earlier(ats[i], ats[j])
  {
    var ats := front + Inside(n, inner);
    forall i, j | 0 <= i < j < |ats| ensures Earlier(ats[i], ats[j]) {
      if i >= |front| {
        assert ats[i][1..] == inner[i - |front|] && ats[j][1..] == inner[j - |front|];
      }
    }
  }

  lemma ReachedInside(files: Files, key: Key, stack: seq<Key>, n: nat, target: Key, out: seq<Placed>,
                      inner: seq<seq<nat>>, at: seq<nat>, p: Placed)
    requires key in files && 1 <= n <= |files[key]| && files[key][n - 1] == Include(target) && target in files
    requires IsListing(files, target, stack + [key], |files[target]|, out, inner)
    requires Leads(files, key, stack, at, p) && at[0] == n
    ensures at in Inside(n, inner)
  {
    assert Leads(files, target, stack + [key], at[1..], p);
    var i :| 0 <= i < |inner| && inner[i] == at[1..];
    assert Inside(n, inner)[i] == [n] + at[1..] == at;
  }

  /** The expansion of a file is exactly the texts that its addresses lead to, in the order of the addresses. */
  lemma ExpansionLists(files: Files, key: Key) returns (ats: seq<seq<nat>>)
    requires key in files
    ensures var out := Expanded(files, key, []).out;
            && |ats| == |out|
            && (forall i :: 0 <= i < |ats| ==> Leads(files, key, [], ats[i], out[i]))
            && (forall i, j :: 0 <= i < j < |ats| ==> Earlier(ats[i], ats[j]))
            && (forall at, p :: Leads(files, key, [], at, p) ==> at in ats)
  {
    ats := FileListing(files, key, []);
  }

  // ----- includes that are not found

  /** Line n of the file is an include of no file. */
  predicate IsUnresolved(files: Files, k: Key, n: nat) {
    k in files && 1 <= n <= |files[k]| && files[k][n - 1].Include? && files[k][n - 1].target !in files
  }

  ghost predicate IsWay(files: Files, key: Key, path: seq<Key>, k: Key) {
    IsPath(files, path) && Distinct(path) && path[0] == key && path[|path| - 1] == k
  }

  lemma {:induction false} MissingPath(files: Files, key: Key, stack: seq<Key>, k: Key, n: nat) returns (path: seq<Key>)
    requires key in files && IsPath(files, stack + [key]) && Distinct(stack)
    requires Missing(k, n) in Expanded(files, key, stack).problems
    ensures IsPath(files, path) && Distinct(path) && path[|path| - 1] == k && stack + [key] <= path
    ensures IsUnresolved(files, k, n)
    decreases |Others(files, stack)|, 1, 0
  {
    OthersShrink(files, stack, key);
    path := MissingInLines(files, key, stack, |files[key]|, k, n);
  }

  lemma {:induction false} MissingInLines(files: Files, key: Key, stack: seq<Key>, m: nat, k: Key, n: nat)
    returns (path: seq<Key>)
    requires key in files && key !in stack && m <= |files[key]| && IsPath(files, stack + [key]) && Distinct(stack)
    requires Missing(k, n) in ExpandedLines(files, key, stack, m).problems
    ensures IsPath(files, path) && Distinct(path) && path[|path| - 1] == k && stack + [key] <= path
    ensures IsUnresolved(files, k, n)
    decreases |Others(files, stack)|, 0, m
  {
    if Missing(k, n) in ExpandedLines(files, key, stack, m - 1).problems {
      path := MissingInLines(files, key, stack, m - 1, k, n);
    } else {
      var target := files[key][m - 1].target;
      if target !in files {
        path := stack + [key];
      } else {
        assert Includes.Includes(files, key, target) by { assert files[key][m - 1] == Include(target); }
        OthersShrink(files, stack, key);
        PathExtends(files, stack + [key], target);
        path := MissingPath(files, target, stack + [key], k, n);
      }
    }
  }

  /** What line n brings is among the problems of all the lines. */
  lemma {:induction false} LinePasses(files: Files, key: Key, stack: seq<Key>, n: nat, m: nat, problem: Problem)
    requires key in files && key !in stack && n < m <= |files[key]| && files[key][n].Include?
    requires var t := files[key][n].target;
             if t in files then problem in Expanded(files, t, stack + [key]).problems
             else problem == Missing(key, n + 1)
    ensures problem in ExpandedLines(files, key, stack, m).problems
    decreases m
  {
    if n < m - 1 {
      LinePasses(files, key, stack, n, m - 1, problem);
    }
  }

  lemma {:induction false} PathMisses(files: Files, path: seq<Key>, i: nat, n: nat)
    requires IsPath(files, path) && Distinct(path) && i < |path| && IsUnresolved(files, path[|path| - 1], n)
    ensures Missing(path[|path| - 1], n) in Expanded(files, path[i], path[..i]).problems
    decreases |path| - i
  {
    var key, stack := path[i], path[..i];
    assert key !in stack;
    if i == |path| - 1 {
      LinePasses(files, key, stack, n - 1, |files[key]|, Missing(key, n));
    } else {
      assert Includes.Includes(files, path[(i + 1) - 1], path[i + 1]);
      var l :| 0 <= l < |files[key]| && files[key][l] == Include(path[i + 1]);
      PathMisses(files, path, i + 1, n);
      assert path[..i + 1] == stack + [key];
      LinePasses(files, key, stack, l, |files[key]|, Missing(path[|path| - 1], n));
    }
  }

  /** An include is reported as not found exactly when it is unresolved and some path of includes reaches its file. */
  lemma MissingIff(files: Files, key: Key, k: Key, n: nat)
    requires key in files
    ensures Missing(k, n) in Expanded(files, key, []).problems
       <==> IsUnresolved(files, k, n) && exists path :: IsWay(files, key, path, k)
  {
    if Missing(k, n) in Expanded(files, key, []).problems {
      var path := MissingPath(files, key, [], k, n);
      assert IsWay(files, key, path, k);
    }
    if path :| IsWay(files, key, path, k) && IsUnresolved(files, k, n) {
      PathMisses(files, path, 0, n);
      assert path[..0] == [];
    }
  }
}
