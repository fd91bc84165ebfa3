/*
 * `routerPush` of the hooks: trims the space characters around a name,
 * pushes the encoded name under a base path, and hands the trimmed name back.
 */
module MiscHooks {
  import opened Wrappers
  import opened Utils

  /** The number of `' '` characters `s` starts with. */
  function LeadingSpaces(s: string): (n: nat)
    ensures n <= |s|
    ensures forall k :: 0 <= k < n ==> s[k] == ' '
    ensures n == |s| || s[n] != ' '
    decreases |s|
  {
    if |s| > 0 && s[0] == ' ' then 1 + LeadingSpaces(s[1..]) else 0
  }

  /** The number of `' '` characters `s` ends with. */
  function TrailingSpaces(s: string): (n: nat)
    ensures n <= |s|
    ensures forall k :: |s| - n <= k < |s| ==> s[k] == ' '
    ensures n == |s| || s[|s| - n - 1] != ' '
    decreases |s|
  {
    if |s| > 0 && s[|s| - 1] == ' ' then 1 + TrailingSpaces(s[..|s| - 1]) else 0
  }

  /** `s` without its leading spaces. */
  function TrimStart(s: string): string
  {
    s[LeadingSpaces(s)..]
  }

  /** `s` without its trailing spaces. */
  function TrimEnd(s: string): string
  {
    s[..|s| - TrailingSpaces(s)]
  }

  /** Both ends trimmed, the start first. */
  function Trimmed(s: string): string
  {
    TrimEnd(TrimStart(s))
  }

  /** `n` space characters. */
  function Spaces(n: nat): (s: string)
    ensures |s| == n && forall k :: 0 <= k < n ==> s[k] == ' '
  {
    seq(n, _ => ' ')
  }

  /** The trimmed name neither starts nor ends with a space. */
  lemma {:induction false} TrimmedEdges(s: string)
    ensures var t := Trimmed(s);
            t == "" || (t[0] != ' ' && t[|t| - 1] != ' ')
  {
    var u := TrimStart(s);
    var t := TrimEnd(u);
    if t != "" {
      assert t[0] == u[0];
      assert t[|t| - 1] == u[|t| - 1];
    }
  }

  /**
   * Only spaces are removed, and only at the two ends: the name is some
   * spaces, the trimmed name, and some spaces.
   */
  lemma {:induction false} TrimmedInfix(s: string)
    ensures s == Spaces(LeadingSpaces(s)) + Trimmed(s) + Spaces(TrailingSpaces(TrimStart(s)))
  {
    var before := LeadingSpaces(s);
    var u := s[before..];
    var after := TrailingSpaces(u);
    var t := u[..|u| - after];
    var r := Spaces(before) + t + Spaces(after);
    assert |r| == |s|;
    forall k | 0 <= k < |s|
      ensures r[k] == s[k]
    {
      if k < before {
      } else if k < before + |t| {
        assert r[k] == t[k - before];
      } else {
        assert r[k] == Spaces(after)[k - before - |t|];
      }
    }
  }

  /** Trimming a trimmed name changes nothing. */
  lemma {:induction false} TrimmedIdempotent(s: string)
    ensures Trimmed(Trimmed(s)) == Trimmed(s)
  {
    var t := Trimmed(s);
    TrimmedEdges(s);
    assert LeadingSpaces(t) == 0;
    assert TrailingSpaces(t) == 0;
  }

  /** The Next.js router, reduced to the paths pushed onto it. */
  class Router {
    var pushed: seq<string>

    constructor ()
      ensures pushed == []
    {
      pushed := [];
    }

    /** `router.push(path, undefined, { shallow: true })`. */
    method Push(path: string)
      modifies this
      ensures pushed == old(pushed) + [path]
    {
      pushed := pushed + [path];
    }
  }

  /** The path `routerPush` pushes: the base path alone for an empty name or `..`. */
  function PushedPath(name: Option<string>, basePath: string, encode: string -> string): (path: string)
    ensures !Truthy(name) || Trimmed(name.value) == ".." ==> path == basePath
    ensures Truthy(name) && Trimmed(name.value) != ".." ==>
              path == basePath + encode(Trimmed(name.value))
  {
    if Truthy(name) && Trimmed(name.value) != ".." then basePath + encode(Trimmed(name.value))
    else basePath
  }

  /**
   * `routerPush`: strips leading, then trailing spaces, encodes the name
   * unless it is `..`, pushes the path and returns the trimmed, unencoded name.
   */
  method RouterPush(router: Router, name: Option<string>, basePath: string, encode: string -> string)
    returns (result: Option<string>)
    modifies router
    ensures router.pushed == old(router.pushed) + [PushedPath(name, basePath, encode)]
    ensures result == if Truthy(name) then Some(Trimmed(name.value)) else name
  {
    result := name;
    var encodedName := "";
    if name.Some? && |name.value| > 0 {
      var n := name.value;
      ghost var cut := 0;
      while |n| > 0 && n[0] == ' '
        invariant cut <= |name.value| && n == name.value[cut..]
        invariant forall k :: 0 <= k < cut ==> name.value[k] == ' '
      {
        n := n[1..];
        cut := cut + 1;
      }
      assert cut == LeadingSpaces(name.value);
      ghost var u := n;
      cut := 0;
      while |n| > 0 && n[|n| - 1] == ' '
        invariant cut <= |u| && n == u[..|u| - cut]
        invariant forall k :: |u| - cut <= k < |u| ==> u[k] == ' '
      {
        n := n[..|n| - 1];
        cut := cut + 1;
      }
      assert cut == TrailingSpaces(u);
      assert n == Trimmed(name.value);
      if n != ".." {
        encodedName := encode(n);
      }
      result := Some(n);
    }
    assert encodedName == "" ==> basePath + encodedName == basePath;
    assert basePath + encodedName == PushedPath(name, basePath, encode);
    router.Push(basePath + encodedName);
  }

  /**
   * With an injective encoding, two pushes of non-empty names other than
   * `..` land on the same path only when the trimmed names agree.
   */
  lemma PushedPathDeterminesName(name1: string, name2: string, basePath: string,
                                 encode: string -> string)
    requires forall a, b :: encode(a) == encode(b) ==> a == b
    requires name1 != "" && Trimmed(name1) != ".."
    requires name2 != "" && Trimmed(name2) != ".."
    requires PushedPath(Some(name1), basePath, encode) == PushedPath(Some(name2), basePath, encode)
    ensures Trimmed(name1) == Trimmed(name2)
  {
    var p1 := PushedPath(Some(name1), basePath, encode);
    var e1 := encode(Trimmed(name1));
    var e2 := encode(Trimmed(name2));
    assert p1 == basePath + e1;
    assert e1 == p1[|basePath|..];
    assert e2 == p1[|basePath|..];
  }
}
