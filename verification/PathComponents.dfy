/** What JoinPath of http/http.go does to the components of paths. */
module PathComponents {
  import opened Paths

  /** The pieces between slashes that are not empty. */
  function Components(s: string): (c: seq<string>)
    ensures s != [] && s[|s| - 1] != '/' ==> c != []
  {
    if s == [] then []
    else
      var init, last := s[..|s| - 1], s[|s| - 1];
      var c := Components(init);
      if last == '/' then c
      else if init == [] || init[|init| - 1] == '/' then c + [[last]]
      else c[..|c| - 1] + [c[|c| - 1] + [last]]
  }

  /** A slash separates the components on its sides. */
  lemma {:induction false} ComponentsAroundSlash(a: string, b: string)
    ensures Components(a + "/" + b) == Components(a) + Components(b)
  {
    hide *;
    if b == [] {
      ComponentsSnoc(a, '/');
      NoComponents();
      assert a + "/" + b == a + "/" && Components(a) + [] == Components(a);
    } else {
      var init, last := b[..|b| - 1], b[|b| - 1];
      ComponentsAroundSlash(a, init);
      AroundSlashSnoc(a, init, last);
      assert b == init + [last];
    }
  }

  lemma AroundSlashSnoc(a: string, init: string, last: char)
    ensures Components(a + "/" + init) == Components(a) + Components(init) ==>
      Components(a + "/" + (init + [last])) == Components(a) + Components(init + [last])
  {
    hide *;
    var before := a + "/" + init;
    assert a + "/" + (init + [last]) == before + [last];
    assert before[|before| - 1] == if init == [] then '/' else init[|init| - 1];
    ComponentsSnoc(before, last);
    ComponentsSnoc(init, last);
    Grown(Components(a), Components(init), last);
  }

  /** What one more character does. */
  lemma ComponentsSnoc(s: string, last: char)
    ensures var c := Components(s);
            && (s != [] && s[|s| - 1] != '/' ==> c != [])
            && Components(s + [last]) ==
               if last == '/' then c
               else if s == [] || s[|s| - 1] == '/' then c + [[last]]
               else c[..|c| - 1] + [c[|c| - 1] + [last]]
  {
    assert (s + [last])[..|s|] == s;
  }

  lemma Grown(a: seq<string>, c: seq<string>, last: char)
    ensures a + c + [[last]] == a + (c + [[last]])
    ensures c != [] ==> var s := a + c;
      s[..|s| - 1] + [s[|s| - 1] + [last]] == a + (c[..|c| - 1] + [c[|c| - 1] + [last]])
  {
  }

  lemma LeadingSlash(b: string)
    ensures Components("/" + b) == Components(b)
  {
    ComponentsAroundSlash("", b);
    assert "" + "/" + b == "/" + b;
  }

  lemma TrailingSlash(a: string)
    ensures Components(a + "/") == Components(a)
  {
    ComponentsAroundSlash(a, "");
    assert a + "/" + "" == a + "/";
  }

  lemma ComponentsOfSides(a: string, b: string)
    ensures Components(Rooted(a)) == Components(a) && Components(Relative(b)) == Components(b)
  {
    LeadingSlash(a);
    assert Components("/") == Components("") by { LeadingSlash(""); assert "/" + "" == "/"; }
    if b != [] && b[0] == '/' {
      LeadingSlash(b[1..]);
      assert b == "/" + b[1..];
    }
  }

  /** Joining two paths puts their components one after the other. */
  lemma JoinedComponents(a: string, b: string)
    ensures Components(Joined(a, b)) == Components(a) + Components(b)
  {
    var left, right := Rooted(a), Relative(b);
    ComponentsOfSides(a, b);
    hide Components;
    if right == [] {
      assert left + ("" + right) == left && Components(a) + [] == Components(a);
      NoComponents();
    } else if left[|left| - 1] == '/' {
      var start := left[..|left| - 1];
      assert left + ("" + right) == start + "/" + right && left == start + "/";
      ComponentsAroundSlash(start, right);
      TrailingSlash(start);
    } else {
      assert left + ("/" + right) == left + "/" + right;
      ComponentsAroundSlash(left, right);
    }
  }

  lemma NoComponents()
    ensures Components("") == []
  {
  }

  function AllComponents(p: seq<string>): seq<string> {
    if p == [] then [] else AllComponents(p[..|p| - 1]) + Components(p[|p| - 1])
  }

  /** The components of a joined path are those of its parts, in order, for any number of parts. */
  lemma {:induction false} JoinedAllComponents(p: seq<string>)
    ensures Components(JoinedAll(p)) == AllComponents(p)
  {
    hide Components, Joined;
    if p == [] {
      NoComponents();
    } else {
      var init, last := p[..|p| - 1], p[|p| - 1];
      JoinedAllComponents(init);
      if init == [] {
        assert [] + Components(last) == Components(last) && AllComponents(init) == [];
      } else {
        JoinedComponents(JoinedAll(init), last);
      }
    }
  }

  /** One slash is put between two paths and one in front, unless there are some. */
  lemma JoinedText(x: string, y: string)
    requires x != [] && y != [] && x[0] != '/' && x[|x| - 1] != '/' && y[0] != '/'
    ensures Joined(x, y) == Joined("/" + x, y) == Joined(x, "/" + y) == Joined(x + "/", y)
            == Joined("/" + x + "/", "/" + y) == "/" + x + "/" + y
  {
    var text := "/" + x + "/" + y;
    assert ("/" + y)[1..] == y;
    assert "/" + x + ("/" + y) == text && "/" + x + "/" + ("" + y) == text;
    assert "/" + (x + "/") + ("" + y) == text;
  }

  /** Nothing is put behind a path for an empty one or a lone slash; no path is the root; and a single path stays
      as it is. */
  lemma JoinedEdges(a: string)
    ensures Joined(a, "") == Joined(a, "/") == (if a == "" then "/" else if a[0] == '/' then a else "/" + a)
    ensures JoinedAll([]) == "" && JoinedAll([a]) == a
    ensures forall b: string :: JoinedAll([a, b]) == Joined(a, b)
  {
    assert Rooted(a) + ("" + "") == Rooted(a);
    forall b: string
      ensures JoinedAll([a, b]) == Joined(a, b)
    {
      assert [a, b][..1] == [a];
    }
  }
}
