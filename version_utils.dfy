// Lexical path normalisation and the dotted-name builder (src/commands/version/utils.rs).
module VersionUtils {
  import opened Wrappers
  import opened LuaAst
  import Strings

  /** `std::path::Component`; a path is the sequence `Path::components` yields. */
  datatype Component = Prefix(prefix: string) | RootDir | CurDir | ParentDir | Normal(name: string)

  type Path = seq<Component>

  /** `Path::components` yields a prefix (a Windows drive or share) only first. */
  predicate WellFormedPath(path: Path)
  {
    forall i :: 0 < i < |path| ==> !path[i].Prefix?
  }

  predicate NoPrefix(cs: Path)
  {
    forall i :: 0 <= i < |cs| ==> !cs[i].Prefix?
  }

  /** One iteration of the `for component in components` loop of `normalize`. */
  function Step(ret: Path, c: Component, keepCurrentDir: bool): Path
    requires !c.Prefix?
  {
    match c
    case RootDir => ret + [c]
    case CurDir => if keepCurrentDir && ret == [] then [CurDir] else ret
    case ParentDir =>
      if ret == [] then [ParentDir]
      else if ret[|ret| - 1] == CurDir then ret[..|ret| - 1] + [ParentDir]
      else if ret[|ret| - 1] != ParentDir then ret[..|ret| - 1]
      else ret + [ParentDir]
    case Normal(_) => ret + [c]
  }

  /** The loop, run over `cs` starting from `ret`. */
  function Run(ret: Path, cs: Path, keepCurrentDir: bool): Path
    requires NoPrefix(cs)
    decreases |cs|
  {
    if cs == [] then ret else Run(Step(ret, cs[0], keepCurrentDir), cs[1..], keepCurrentDir)
  }

  /** The components the loop starts from: a leading prefix is taken over as is. */
  function Start(path: Path): Path
  {
    if path != [] && path[0].Prefix? then [path[0]] else []
  }

  function Rest(path: Path): (r: Path)
    requires WellFormedPath(path)
    ensures NoPrefix(r)
  {
    if path != [] && path[0].Prefix? then path[1..] else path
  }

  /**
    * What `normalize(path, keepCurrentDir)` computes: the empty path stays empty,
    * otherwise the loop's result, or `.` when everything cancelled.
    */
  function NormalizeSpec(path: Path, keepCurrentDir: bool): (r: Path)
    requires WellFormedPath(path)
    ensures r == [] <==> path == []
  {
    if path == [] then []
    else
      var ret := Run(Start(path), Rest(path), keepCurrentDir);
      if ret == [] then [CurDir] else ret
  }

  /** `normalize`: the imperative loop over the components, pushing and popping `ret`. */
  method Normalize(path: Path, keepCurrentDir: bool) returns (r: Path)
    requires WellFormedPath(path)
    ensures r == NormalizeSpec(path, keepCurrentDir)
  {
    if path == [] {
      return [];
    }
    var ret: Path;
    var i: nat;
    if path[0].Prefix? {
      ret := [path[0]];
      i := 1;
    } else {
      ret := [];
      i := 0;
    }
    assert path[i..] == Rest(path);
    while i < |path|
      invariant 0 <= i <= |path|
      invariant NoPrefix(path[i..])
      invariant Run(ret, path[i..], keepCurrentDir) == Run(Start(path), Rest(path), keepCurrentDir)
    {
      var component := path[i];
      ghost var before := ret;
      assert path[i..][1..] == path[i + 1..];
      match component {
        case RootDir =>
          ret := ret + [component];
        case CurDir =>
          if keepCurrentDir && ret == [] {
            ret := ret + [CurDir];
          }
        case ParentDir =>
          if ret != [] {
            var last := ret[|ret| - 1];
            if last == CurDir {
              ret := ret[..|ret| - 1];
              ret := ret + [ParentDir];
            } else if last != ParentDir {
              ret := ret[..|ret| - 1];
            } else {
              ret := ret + [ParentDir];
            }
          } else {
            ret := ret + [ParentDir];
          }
        case Normal(_) =>
          ret := ret + [component];
      }
      assert ret == Step(before, component, keepCurrentDir);
      i := i + 1;
    }
    if ret == [] {
      ret := ret + [CurDir];
    }
    r := ret;
  }

  /** `normalize_path`: normalisation that drops every `.`. */
  method NormalizePath(path: Path) returns (r: Path)
    requires WellFormedPath(path)
    ensures r == NormalizeSpec(path, false)
  {
    r := Normalize(path, false);
  }

  /** `normalize_path_with_current_dir`: normalisation that keeps a leading `.`. */
  method NormalizePathWithCurrentDir(path: Path) returns (r: Path)
    requires WellFormedPath(path)
    ensures r == NormalizeSpec(path, true)
  {
    r := Normalize(path, true);
  }

  // ---- the shape of a normalised path ----

  /**
    * The shape of the loop's accumulator: a prefix only first, a `.` only first and only
    * when it is kept, and every `..` preceded by `..` only.
    */
  predicate PartiallyNormal(ret: Path, keepCurrentDir: bool)
  {
    && (forall i :: 0 < i < |ret| ==> !ret[i].Prefix?)
    && (forall i :: 0 < i < |ret| ==> ret[i] != CurDir)
    && (!keepCurrentDir ==> CurDir !in ret)
    && (forall i, j :: 0 <= i < j < |ret| && ret[j] == ParentDir ==> ret[i] == ParentDir)
  }

  /**
    * A normalised path: non-empty; a prefix only first; `.` only first, and without
    * `keepCurrentDir` only as the whole path `.`; every `..` in a leading run of `..`.
    */
  predicate IsNormal(r: Path, keepCurrentDir: bool)
  {
    && r != []
    && (forall i :: 0 < i < |r| ==> !r[i].Prefix?)
    && (forall i :: 0 < i < |r| ==> r[i] != CurDir)
    && (!keepCurrentDir && CurDir in r ==> r == [CurDir])
    && (forall i, j :: 0 <= i < j < |r| && r[j] == ParentDir ==> r[i] == ParentDir)
  }

  lemma StepPartiallyNormal(ret: Path, c: Component, keepCurrentDir: bool)
    requires !c.Prefix?
    requires PartiallyNormal(ret, keepCurrentDir)
    ensures PartiallyNormal(Step(ret, c, keepCurrentDir), keepCurrentDir)
  {
    if c == ParentDir && ret != [] {
      var n := |ret|;
      if ret[n - 1] == CurDir {
        assert n == 1;
      } else if ret[n - 1] == ParentDir {
        assert forall i :: 0 <= i < n ==> ret[i] == ParentDir;
      }
    }
  }

  lemma {:induction false} RunPartiallyNormal(ret: Path, cs: Path, keepCurrentDir: bool)
    requires NoPrefix(cs)
    requires PartiallyNormal(ret, keepCurrentDir)
    ensures PartiallyNormal(Run(ret, cs, keepCurrentDir), keepCurrentDir)
    decreases |cs|
  {
    if cs != [] {
      StepPartiallyNormal(ret, cs[0], keepCurrentDir);
      RunPartiallyNormal(Step(ret, cs[0], keepCurrentDir), cs[1..], keepCurrentDir);
    }
  }

  /** Every non-empty path normalises to a path of normal shape. */
  lemma NormalizeIsNormal(path: Path, keepCurrentDir: bool)
    requires WellFormedPath(path)
    requires path != []
    ensures IsNormal(NormalizeSpec(path, keepCurrentDir), keepCurrentDir)
  {
    RunPartiallyNormal(Start(path), Rest(path), keepCurrentDir);
  }

  /** Over components the loop never cancels, it only appends. */
  lemma {:induction false} RunAppends(ret: Path, cs: Path, keepCurrentDir: bool)
    requires forall k :: 0 <= k < |cs| ==> cs[k].RootDir? || cs[k].Normal? || cs[k].ParentDir?
    requires forall j :: 0 <= j < |cs| && cs[j] == ParentDir ==>
               (forall i :: 0 <= i < j ==> cs[i] == ParentDir) && (forall i :: 0 <= i < |ret| ==> ret[i] == ParentDir)
    ensures Run(ret, cs, keepCurrentDir) == ret + cs
    decreases |cs|
  {
    if cs != [] {
      var next := Step(ret, cs[0], keepCurrentDir);
      assert next == ret + [cs[0]];
      RunAppends(next, cs[1..], keepCurrentDir);
      assert ret + [cs[0]] + cs[1..] == ret + cs;
    }
  }

  /** A normalised path is its own normal form. */
  lemma NormalIsFixedPoint(r: Path, keepCurrentDir: bool)
    requires IsNormal(r, keepCurrentDir)
    ensures WellFormedPath(r)
    ensures NormalizeSpec(r, keepCurrentDir) == r
  {
    if r[0] == CurDir {
      if |r| == 1 {
        assert Rest(r) == [CurDir];
        assert Run([], [CurDir], keepCurrentDir) == Run(Step([], CurDir, keepCurrentDir), [], keepCurrentDir);
      } else {
        assert keepCurrentDir;
        var tail := r[1..];
        assert Step([], CurDir, keepCurrentDir) == [CurDir];
        assert Rest(r)[1..] == tail;
        RunAppends([CurDir], tail, keepCurrentDir);
        assert [CurDir] + tail == r;
      }
    } else if r[0].Prefix? {
      RunAppends([r[0]], r[1..], keepCurrentDir);
      assert [r[0]] + r[1..] == r;
    } else {
      RunAppends([], r, keepCurrentDir);
    }
  }

  /** Normalising twice is normalising once. */
  lemma NormalizeIdempotent(path: Path, keepCurrentDir: bool)
    requires WellFormedPath(path)
    ensures WellFormedPath(NormalizeSpec(path, keepCurrentDir))
    ensures NormalizeSpec(NormalizeSpec(path, keepCurrentDir), keepCurrentDir) == NormalizeSpec(path, keepCurrentDir)
  {
    if path != [] {
      NormalizeIsNormal(path, keepCurrentDir);
      NormalIsFixedPoint(NormalizeSpec(path, keepCurrentDir), keepCurrentDir);
    }
  }

  // ---- order of emitted components ----

  /** `cs` without its `.` components. */
  function DropCurDir(cs: Path): (r: Path)
    ensures |r| <= |cs|
    decreases |cs|
  {
    if cs == [] then []
    else if cs[0] == CurDir then DropCurDir(cs[1..])
    else [cs[0]] + DropCurDir(cs[1..])
  }

  lemma {:induction false} RunWithoutParentDir(ret: Path, cs: Path)
    requires NoPrefix(cs)
    requires forall k :: 0 <= k < |cs| ==> cs[k] != ParentDir
    ensures Run(ret, cs, false) == ret + DropCurDir(cs)
    decreases |cs|
  {
    if cs != [] {
      var c := cs[0];
      if c == CurDir {
        assert Step(ret, c, false) == ret;
      } else {
        assert Step(ret, c, false) == ret + [c];
      }
      RunWithoutParentDir(Step(ret, c, false), cs[1..]);
      if cs[0] != CurDir {
        assert ret + [cs[0]] + DropCurDir(cs[1..]) == ret + DropCurDir(cs);
      }
    }
  }

  /**
    * Without `..`, `normalize_path` keeps the prefix, root and normal components in input
    * order and drops every `.`, giving `.` when nothing is left.
    */
  lemma NormalizeWithoutParentDir(path: Path)
    requires WellFormedPath(path)
    requires ParentDir !in path
    ensures path != [] ==> NormalizeSpec(path, false) == (if DropCurDir(path) == [] then [CurDir] else DropCurDir(path))
  {
    if path != [] {
      assert forall k :: 0 <= k < |Rest(path)| ==> Rest(path)[k] in path;
      RunWithoutParentDir(Start(path), Rest(path));
      if path[0].Prefix? {
        assert path == [path[0]] + path[1..];
      }
    }
  }

  // ---- the two entry points ----

  /** `R(k, n)`: the keeping run equals the dropping run, or has one extra leading `.`. */
  predicate SameUpToLeadingCurDir(k: Path, n: Path)
  {
    k == n || k == [CurDir] + n
  }

  lemma {:induction false} RunKeepVersusDrop(k: Path, n: Path, cs: Path)
    requires NoPrefix(cs)
    requires CurDir !in n
    requires SameUpToLeadingCurDir(k, n)
    ensures SameUpToLeadingCurDir(Run(k, cs, true), Run(n, cs, false))
    ensures CurDir !in Run(n, cs, false)
    decreases |cs|
  {
    if cs != [] {
      var c := cs[0];
      var k', n' := Step(k, c, true), Step(n, c, false);
      if c == ParentDir && n != [] {
        assert k[|k| - 1] == n[|n| - 1];
        if k == [CurDir] + n {
          assert k[..|k| - 1] == [CurDir] + n[..|n| - 1];
        }
      }
      if c.RootDir? || c.Normal? {
        if k == [CurDir] + n {
          assert k' == [CurDir] + n';
        }
      }
      RunKeepVersusDrop(k', n', cs[1..]);
    }
  }

  /**
    * `normalize_path_with_current_dir` and `normalize_path` differ only in a leading `.`
    * that the former keeps.
    */
  lemma NormalizeKeepVersusDrop(path: Path)
    requires WellFormedPath(path)
    ensures NormalizeSpec(path, true) == NormalizeSpec(path, false)
         || NormalizeSpec(path, true) == [CurDir] + NormalizeSpec(path, false)
  {
    if path != [] {
      RunKeepVersusDrop(Start(path), Start(path), Rest(path));
    }
  }

  // ---- appending one component ----

  lemma {:induction false} RunSnoc(ret: Path, cs: Path, c: Component, keepCurrentDir: bool)
    requires NoPrefix(cs) && !c.Prefix?
    ensures NoPrefix(cs + [c])
    ensures Run(ret, cs + [c], keepCurrentDir) == Step(Run(ret, cs, keepCurrentDir), c, keepCurrentDir)
    decreases |cs|
  {
    if cs != [] {
      assert (cs + [c])[1..] == cs[1..] + [c];
      RunSnoc(Step(ret, cs[0], keepCurrentDir), cs[1..], c, keepCurrentDir);
    }
  }

  lemma RunSnocOnPath(path: Path, c: Component, keepCurrentDir: bool)
    requires WellFormedPath(path) && path != [] && !c.Prefix?
    ensures WellFormedPath(path + [c])
    ensures Start(path + [c]) == Start(path) && Rest(path + [c]) == Rest(path) + [c]
    ensures Run(Start(path + [c]), Rest(path + [c]), keepCurrentDir) == Step(Run(Start(path), Rest(path), keepCurrentDir), c, keepCurrentDir)
  {
    if path[0].Prefix? {
      assert (path + [c])[1..] == path[1..] + [c];
    }
    RunSnoc(Start(path), Rest(path), c, keepCurrentDir);
  }

  /**
    * Appending `..` to a non-empty path acts on the last component of its normal form:
    * a `.` is replaced by `..`, a `..` gets another `..`, anything else is removed (and
    * what remains is `.` when nothing does).
    */
  lemma NormalizeAppendParentDir(path: Path, keepCurrentDir: bool)
    requires WellFormedPath(path) && path != []
    ensures WellFormedPath(path + [ParentDir])
    ensures var q := NormalizeSpec(path, keepCurrentDir);
      NormalizeSpec(path + [ParentDir], keepCurrentDir) ==
        if q[|q| - 1] == CurDir then q[..|q| - 1] + [ParentDir]
        else if q[|q| - 1] == ParentDir then q + [ParentDir]
        else if |q| == 1 then [CurDir]
        else q[..|q| - 1]
  {
    RunSnocOnPath(path, ParentDir, keepCurrentDir);
    var q := NormalizeSpec(path, keepCurrentDir);
    NormalizeIsNormal(path, keepCurrentDir);
    if q[|q| - 1] == CurDir {
      assert |q| == 1;
    }
  }

  /** A `.` appended to a non-empty path never changes its normal form. */
  lemma NormalizeAppendCurDir(path: Path, keepCurrentDir: bool)
    requires WellFormedPath(path) && path != []
    ensures WellFormedPath(path + [CurDir])
    ensures NormalizeSpec(path + [CurDir], keepCurrentDir) == NormalizeSpec(path, keepCurrentDir)
  {
    RunSnocOnPath(path, CurDir, keepCurrentDir);
  }

  /** Appending a root or normal component to a path emits it after the normal form's components. */
  lemma NormalizeAppendNormal(path: Path, c: Component)
    requires WellFormedPath(path) && path != []
    requires c.RootDir? || c.Normal?
    ensures WellFormedPath(path + [c])
    ensures var q := NormalizeSpec(path, false);
      NormalizeSpec(path + [c], false) == if q == [CurDir] then [c] else q + [c]
  {
    RunSnocOnPath(path, c, false);
    RunPartiallyNormal(Start(path), Rest(path), false);
  }

  // ---- fully qualified names ----

  /**
    * The names along a field chain `a.b.c`, outermost first, or None when the chain
    * does not start at a plain identifier.
    */
  function NameChain(fieldExpression: FieldExpression): (r: Option<seq<string>>)
    ensures r.Some? ==> |r.value| >= 2 && r.value[|r.value| - 1] == fieldExpression.field
  {
    match fieldExpression.prefix
    case PrefixIdentifier(name) => Some([name, fieldExpression.field])
    case PrefixField(inner) =>
      (match NameChain(inner)
       case Some(names) => Some(names + [fieldExpression.field])
       case None => None)
    case _ => None
  }

  /**
    * `get_fqn`: the dotted name of a field chain made of identifiers only (`a.b.c`),
    * None when an index, call or parenthesised expression occurs in it.
    */
  function GetFqn(fieldExpression: FieldExpression): (r: Option<string>)
    ensures r.Some? <==> NameChain(fieldExpression).Some?
    ensures r.Some? ==> r.value == Strings.Join(NameChain(fieldExpression).value, ".")
  {
    match fieldExpression.prefix
    case PrefixIdentifier(name) => Some(name + "." + fieldExpression.field)
    case PrefixField(inner) =>
      (match GetFqn(inner)
       case Some(fqn) =>
         JoinSnoc(NameChain(inner).value, fieldExpression.field);
         Some(fqn + "." + fieldExpression.field)
       case None => None)
    case _ => None
  }

  lemma {:induction false} JoinSnoc(parts: seq<string>, last: string)
    requires |parts| >= 1
    ensures Strings.Join(parts + [last], ".") == Strings.Join(parts, ".") + "." + last
    decreases |parts|
  {
    if |parts| > 1 {
      JoinSnoc(parts[1..], last);
      assert (parts + [last])[1..] == parts[1..] + [last];
    }
  }

  /** Identifiers contain no `.`, so the dotted name splits back into the chain of names. */
  lemma FqnSplitsIntoNames(fieldExpression: FieldExpression)
    requires NameChain(fieldExpression).Some?
    requires forall k :: 0 <= k < |NameChain(fieldExpression).value| ==> '.' !in NameChain(fieldExpression).value[k]
    ensures GetFqn(fieldExpression).Some?
    ensures Strings.Split(GetFqn(fieldExpression).value, '.') == NameChain(fieldExpression).value
  {
    Strings.SplitJoin(NameChain(fieldExpression).value, '.');
  }
}
