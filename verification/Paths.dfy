/** Model of joinPath and JoinPath in http/http.go. */
module Paths {

  function Rooted(a: string): (r: string)
    ensures r != [] && r[0] == '/'
  {
    if a == [] then "/" else if a[0] != '/' then "/" + a else a
  }

  function Relative(b: string): string {
    if b != [] && b[0] == '/' then b[1..] else b
  }

  /** The slash that goes between the two: none after a slash or a lone root or in front of nothing. */
  function Separator(left: string, right: string): string
    requires left != []
  {
    if right != [] && left[|left| - 1] != '/' then "/" else ""
  }

  /** joinPath. */
  function Joined(a: string, b: string): (r: string)
    ensures r != [] && r[0] == '/'
  {
    Rooted(a) + (Separator(Rooted(a), Relative(b)) + Relative(b))
  }

  /** JoinPath. */
  function JoinedAll(p: seq<string>): string {
    if p == [] then ""
    else if |p| == 1 then p[0]
    else Joined(JoinedAll(p[..|p| - 1]), p[|p| - 1])
  }

  method JoinTwo(first: string, second: string) returns (r: string)
    ensures r == Joined(first, second)
  {
    var a, b := first, second;
    if |a| == 0 {
      a := "/";
    } else if a[0] != '/' {
      a := "/" + a;
    }
    if |b| != 0 && b[0] == '/' {
      b := b[1..];
    }
    if |b| != 0 && |a| > 1 && a[|a| - 1] != '/' {
      a := a + "/";
    }
    return a + b;
  }

  method JoinPath(p: seq<string>) returns (ret: string)
    ensures ret == JoinedAll(p)
  {
    if |p| == 0 {
      return "";
    } else if |p| == 1 {
      return p[0];
    }
    ret := p[0];
    for i := 1 to |p|
      invariant ret == JoinedAll(p[..i])
    {
      assert p[..i + 1][..i] == p[..i];
      ret := JoinTwo(ret, p[i]);
    }
    assert p[..|p|] == p;
  }

  /** Only the last character in front, and whether anything follows, decide about the slash. */
  lemma SeparatorOf(left: string, mid: string, right: string)
    requires left != [] && mid != []
    ensures Separator(left + mid, right) == Separator(mid, right)
    ensures Separator(left, mid + right) == Separator(left, mid)
  {
  }

  lemma NothingBetween(a: string, b: string, c: string)
    requires Relative(b) == []
    ensures Joined(Joined(a, b), c) == Joined(a, Joined(b, c))
  {
    var left, right := Rooted(a), Relative(c);
    assert Rooted(b) == "/" && Separator(left, Relative(b)) == Separator("/", right) == "";
    hide Separator;
    assert Joined(a, b) == left + ("" + []) == left;
    assert Joined(b, c) == "/" + ("" + right) == "/" + right;
    assert ("/" + right)[1..] == right;
  }

  lemma Regroup(a: string, b: string, c: string, d: string)
    ensures a + (b + c) == a + b + c && a + (b + c) + d == a + (b + (c + d))
  {
  }

  lemma SomethingBetween(a: string, b: string, c: string)
    requires Relative(b) != []
    ensures Joined(Joined(a, b), c) == Joined(a, Joined(b, c))
  {
    var left, mid, right := Rooted(a), Relative(b), Relative(c);
    var sep, sep2 := Separator(left, mid), Separator(mid, right);
    assert Rooted(b) == "/" + mid;
    hide Separator;
    SeparatorOf("/", mid, right);
    var tail := mid + (sep2 + right);
    Regroup("/", [], mid, sep2 + right);
    assert "/" + [] == "/" && [] + mid == mid && [] + tail == tail;
    assert Joined(b, c) == "/" + tail;
    assert ("/" + tail)[1..] == tail;
    SeparatorOf(left, mid, sep2 + right);
    assert Joined(a, Joined(b, c)) == left + (sep + tail);
    SeparatorOf(left + sep, mid, right);
    Regroup(left, sep, mid, sep2 + right);
    assert Joined(Joined(a, b), c) == left + (sep + mid) + (sep2 + right);
  }

  /** joinPath is associative, on all strings. */
  lemma JoinedAssociates(a: string, b: string, c: string)
    ensures Joined(Joined(a, b), c) == Joined(a, Joined(b, c))
  {
    if Relative(b) == [] { NothingBetween(a, b, c); } else { SomethingBetween(a, b, c); }
  }

  /** Joining two lists at once or one after the other gives the same path. */
  lemma {:induction false} JoinedAllSplits(xs: seq<string>, ys: seq<string>)
    requires xs != [] && ys != []
    ensures JoinedAll(xs + ys) == Joined(JoinedAll(xs), JoinedAll(ys))
    decreases |ys|
  {
    var init, last := ys[..|ys| - 1], ys[|ys| - 1];
    assert (xs + ys)[..|xs + ys| - 1] == xs + init;
    if init == [] {
      assert xs + init == xs && ys == [last];
    } else {
      JoinedAllSplits(xs, init);
      JoinedAssociates(JoinedAll(xs), JoinedAll(init), last);
    }
  }
}
