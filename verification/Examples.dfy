/** Registrations on which the code as written does not do what it is for. */
module Examples {
  import opened Options
  import opened Patterns
  import opened RouteTree
  import opened Routes
  import opened Insertion
  import opened Walk
  import Steps
  import opened CaseSearch

  const H1: Handle := [HandleFuncNode(1, 0)]
  const H2: Handle := [HandleFuncNode(2, 0)]
  const H3: Handle := [HandleFuncNode(3, 0)]

  function Leaf(path: string, priority: nat, h: Handle): Node {
    Node(path, false, Static, 0, priority, "", [], Some(h))
  }

  /** The tree of "/a" and "/b". */
  const AB := Node("/", false, Root, 0, 2, "ab", [Leaf("a", 1, H1), Leaf("b", 1, H2)], None)

  lemma LeafWF(path: string, p: nat, h: Handle)
    requires path != "" && NoWild(path)
    ensures WF(Leaf(path, 1, h)) && Fits(Leaf(path, p, h), 255) && Count(Leaf(path, p, h)) == 1
  {
  }

  lemma TreeAB()
    ensures Tree(AB)
  {
    var a, b := Leaf("a", 1, H1), Leaf("b", 1, H2);
    LeafWF("a", 1, H1);
    LeafWF("b", 1, H2);
    assert CountAll([b]) == 1;
    assert [a, b][1..] == [b];
    assert CountAll([a, b]) == 2;
    assert Shape(AB);
    assert Fits(AB, 255);
  }

  /** The tree the code as written makes of AB and "/bc": two children, three index bytes. */
  const LOST := Node("/", false, Root, 0, 3, "aba",
                     [Node("b", false, Static, 0, 2, "c", [Leaf("c", 1, H3)], Some(H2)), Leaf("a", 1, H1)], None)

  const B2 := Leaf("b", 2, H2)
  const BC := Node("b", false, Static, 0, 2, "c", [Leaf("c", 1, H3)], Some(H2))

  lemma AddCToB()
    ensures Pending(B2) && AddAt(B2, "bc", 0, H3, AS_WRITTEN) == Some(BC)
  {
    LeafWF("b", 2, H2);
    LeafWF("b", 1, H2);
    Bumped(Leaf("b", 1, H2), 0);
    var c := EMPTY.(priority := 1);
    assert [EMPTY][0 := c] == [c];
    var s := IncrementChildPrio([EMPTY], "c", 0, AS_WRITTEN);
    assert s.0 == [c] && s.1 == "c" && s.2 == 0;
    assert EMPTY.(maxParams := 0) == EMPTY && B2.children + [EMPTY] == [EMPTY] && B2.indices + ['c'] == "c";
    assert [c][0 := Leaf("c", 1, H3)] == [Leaf("c", 1, H3)];
    assert AddNew(B2, "c", 0, H3, AS_WRITTEN) == Some(BC);
    assert Lcp("bc", "b") == 1 && "bc"[1..] == "c" by { assert "bc"[1..] == "c" && "b"[1..] == ""; }
    assert Cut(B2, 1, 0) == B2;
    assert AddBelow(B2, "c", 0, H3, AS_WRITTEN) == Some(BC);
  }

  lemma MoveB()
    ensures IncrementChildPrio(AB.children, "ab", 1, AS_WRITTEN) == ([B2, Leaf("a", 1, H1)], "aba", 0)
  {
    var kids := [Leaf("a", 1, H1), B2];
    assert AB.children[1 := B2] == kids;
    assert MoveLeft(kids, 1, 0) == [B2, Leaf("a", 1, H1)];
    assert MoveIndex("ab", 1, 0, AS_WRITTEN) == "aba";
  }

  lemma CutAB()
    requires Tree(AB)
    ensures var ab := AB.(priority := 3); Pending(ab) && Lcp("/bc", "/") == 1 && Cut(ab, 1, 0) == ab
  {
    Bumped(AB, 0);
    assert "/bc"[1..] == "bc" && "/"[1..] == "";
  }

  lemma AddBC()
    requires Tree(AB)
    ensures AddRoute(AB, "/bc", H3, AS_WRITTEN) == Some(LOST)
  {
    WildZero("/bc");
    var ab := AB.(priority := 3);
    CutAB();
    hide Cut, Lcp, Fits, Count, CountAll;
    assert "/bc"[1..] == "bc";
    assert IndexOf("ab", 'b') == 1 by { assert "ab"[1..] == "b"; }
    MoveB();
    AddCToB();
    hide Body, WF, Shape, Count, Fits, IncrementChildPrio;
    assert [B2, Leaf("a", 1, H1)][0 := BC] == LOST.children;
    assert AddBelow(ab, "bc", 0, H3, AS_WRITTEN) == Some(LOST);
  }

  /** The tree of "/a". */
  const A := Node("/a", false, Root, 0, 1, "", [], Some(H1))

  lemma TreeA()
    ensures Tree(A) && AddRoute(EMPTY, "/a", H1, AS_WRITTEN) == Some(A)
  {
    WildZero("/a");
    assert Shape(A) && Count(A) == 1 && Fits(A, 255);
  }

  /** r2: after "/a", the route "/" is refused as written, although the two patterns are compatible. */
  lemma PrefixRefused()
    ensures AddRoute(EMPTY, "/a", H1, AS_WRITTEN) == Some(A) && AddRoute(A, "/", H2, AS_WRITTEN).None?
    ensures Tree(A) && Compatible("/a", "/") && AddRoute(A, "/", H2, REPAIRED).Some?
  {
    TreeA();
    SplitA();
    WildZero("/");
    hide Body, WF, Shape, Count, Fits, Tree, Pending, Cut, Lcp, AddBelow, AddAt;
    assert A.(priority := A.priority + 1) == A.(priority := 2);
    SlashAtA(AS_WRITTEN);
    SlashAtA(REPAIRED);
    SlashFits();
  }

  lemma SlashFits()
    ensures Compatible("/a", "/")
  {
    assert "/a"[1..] == "a" && "/"[1..] == "";
  }

  /** The walk of "/" at A: as written it goes on below the node it ends in. */
  lemma SlashAtA(v: Version)
    ensures var a := A.(priority := 2);
      Pending(a) && Entry(a, "/") && (AddAt(a, "/", 0, H2, v).Some? <==> v.r2)
  {
    SplitA();
    var a := A.(priority := 2);
    assert Lcp("/", "/a") == 1 by { assert "/"[1..] == "" && "/a"[1..] == "a"; }
    assert Cut(a, 1, 0) == SPLIT_A && Pending(SPLIT_A);
    hide Body, WF, Shape, Count, Fits, Cut, Lcp, AddBelow;
    EndsInside(SPLIT_A, 0, H2, v);
    assert "/"[1..] == "";
  }

  /** A with its edge split for a route that goes on with another byte than 'a'. */
  const SPLIT_A := Node("/", false, Root, 0, 2, "a", [Leaf("a", 1, H1)], None)

  lemma SplitA()
    ensures var a := A.(priority := 2);
      Pending(a) && Lcp("/b", "/a") == 1 && Cut(a, 1, 0) == SPLIT_A && Below(SPLIT_A, "b")
  {
    TreeA();
    Bumped(A, 0);
    LeafWF("a", 1, H1);
    assert "/a"[1..] == "a" && "/b"[1..] == "b" && "/a"[..1] == "/";
    assert MaxOfChildren([]) == 0;
  }

  /** Registering "/a" and then "/b" as written. */
  lemma RegisterAB()
    ensures Tree(A) && AddRoute(EMPTY, "/a", H1, AS_WRITTEN) == Some(A)
    ensures AddRoute(A, "/b", H2, AS_WRITTEN) == Some(AB)
  {
    TreeA();
    SplitA();
    WildZero("/b");
    hide Body, Count, Fits, Cut, Lcp, AddNew;
    assert "/b"[1..] == "b" && IndexOf("a", 'b') == 1;
    AddNewAt(SPLIT_A, "b", 0, H2, AS_WRITTEN);
    assert [Leaf("a", 1, H1)] + [Leaf("b", 1, H2)] == AB.children && "a" + "b" == "ab";
    assert AddBelow(SPLIT_A, "b", 0, H2, AS_WRITTEN) == Some(AB);
  }

  /** r1: after "/a" and "/b", adding "/bc" makes the code as written lose "/a". */
  lemma IndexByteLost()
    ensures Tree(A) && AddRoute(EMPTY, "/a", H1, AS_WRITTEN) == Some(A)
    ensures Tree(AB) && AddRoute(A, "/b", H2, AS_WRITTEN) == Some(AB) && GetValue(AB, "/a", Nil) == Found(H1, [])
    ensures AddRoute(AB, "/bc", H3, AS_WRITTEN).Some?
    ensures GetValue(AddRoute(AB, "/bc", H3, AS_WRITTEN).value, "/a", Nil) == Missing
  {
    RegisterAB();
    TreeAB();
    AddBC();
    LookupA();
  }

  lemma LookupA()
    ensures GetValue(AB, "/a", Nil) == Found(H1, []) && GetValue(LOST, "/a", Nil) == Missing
  {
    assert "/a"[1..] == "a" && IndexOf("ab", 'a') == 0 && IndexOf("aba", 'a') == 0;
    assert GetValue(Leaf("a", 1, H1), "a", Nil) == Found(H1, []);
    assert GetValue(LOST.children[0], "a", Nil) == Missing;
  }

  /** The tree the code as written makes of "/:x": a parameter without name and without handle. */
  const NAMELESS := Node("/", true, Root, 0, 1, "", [Node("", false, Kind.Param, 1, 1, "", [], None)], None)

  /** r3: the first route that ends in a parameter stores no handle, and looking it up panics. */
  lemma HandleLost()
    ensures AddRoute(EMPTY, "/:x", H1, AS_WRITTEN) == Some(NAMELESS)
    ensures GetValue(NAMELESS, "/a", Nil) == Crash
    ensures Match("/:x", "/a") == Some([Patterns.Param("x", "a")])
  {
    NamelessCut();
    NamelessMatch();
    InsertNameless();
    assert "/a"[1..] == "a";
    assert GetWild(NAMELESS.children[0], "a", Nil) == Crash;
  }

  lemma NamelessCut()
    ensures "/:x"[1..] == ":x" && ":x"[1..] == "x" && "/:x"[..1] == "/" && ":x"[2..] == "" && ":x"[1..2] == "x"
    ensures Wild("/:x") == 1 && FirstWild("/:x") == 1 && SegEnd(":x") == 2
  {
    assert Wild("x") == 0 && Wild(":x") == 1 && SegEnd("x") == 1;
  }

  lemma InsertNameless()
    ensures AddRoute(EMPTY, "/:x", H1, AS_WRITTEN) == Some(NAMELESS)
  {
    NamelessCut();
    hide Wild, FirstWild, SegEnd;
    LoopAtParam(EMPTY.(priority := 1), "/:x", 1, H1, AS_WRITTEN);
  }

  lemma NamelessMatch()
    ensures Match("/:x", "/a") == Some([Patterns.Param("x", "a")])
  {
    NamelessCut();
    assert "/a"[1..] == "a" && SegEnd("a") == 1 && "a"[1..] == "" && "a"[..1] == "a" && Match("", "") == Some([]);
    assert [Patterns.Param("x", "a")] + [] == [Patterns.Param("x", "a")];
    assert Match(":x", "a") == Some([Patterns.Param("x", "a")]);
  }

  const HOLDER := Node("/*b", false, CatchAll, 1, 1, "", [], Some(H1))
  const WRAPPER := Node("", true, CatchAll, 1, 1, "", [HOLDER], None)
  const BARE := Node("", false, Static, 1, 1, "/", [WRAPPER], None)
  const PARAM := Node(":a", false, Kind.Param, 2, 1, "", [BARE], None)

  /** The tree of the one route "/:a/" with the catch-all b. */
  const BEHIND := Node("/", true, Root, 0, 1, "", [PARAM], None)

  lemma TreeBehind()
    ensures Tree(BEHIND) && WF(PARAM) && WF(BARE)
  {
    assert CountAll([HOLDER]) == 1 && WF(HOLDER) && Fits(HOLDER, 1);
    assert CountAll([WRAPPER]) == 1 && WF(WRAPPER) && Fits(WRAPPER, 1);
    assert CountAll([BARE]) == 1 && WF(BARE) && Fits(BARE, 1);
    assert CountAll([PARAM]) == 1 && Fits(PARAM, 2) && WF(PARAM);
    FitsMore(PARAM, 2, 255);
    assert Fits(BEHIND, 255);
  }

  /** Registering "/:a/" with the catch-all b as written. */
  lemma RegisterBehind()
    ensures AddRoute(EMPTY, "/:a/*b", H1, AS_WRITTEN) == Some(BEHIND)
  {
    BehindCut();
    BehindCounts();
    InsertTail();
    hide InsertLoop, Wild, FirstWild, SegEnd;
    assert ParamChild(":a/*b", 2, 2, H1, AS_WRITTEN) == Some(PARAM);
    LoopAtParam(EMPTY.(priority := 1), "/:a/*b", 2, H1, AS_WRITTEN);
  }

  lemma BehindCut()
    ensures "/:a/*b"[1..] == ":a/*b" && "/:a/*b"[..1] == "/" && ":a/*b"[2..] == "/*b" && ":a/*b"[..2] == ":a"
    ensures ":a/*b"[1..2] == "a" && ":a/*b"[1..] == "a/*b" && "a/*b"[1..] == "/*b" && "/*b"[1..] == "*b"
      && "*b"[1..] == "b"
  {
  }

  lemma BehindCounts()
    ensures Wild("/:a/*b") == 2 && FirstWild("/:a/*b") == 1 && SegEnd(":a/*b") == 2
    ensures Wild("/*b") == 1 && FirstWild("/*b") == 1
  {
    BehindCut();
    assert "b"[1..] == "" && Wild("b") == 0 && Wild("*b") == 1 && Wild("/*b") == 1;
    assert Wild("a/*b") == 1 && Wild(":a/*b") == 2;
    assert SegEnd("/*b") == 0 && SegEnd("a/*b") == 1;
  }

  lemma InsertTail()
    ensures InsertLoop(Node("", false, Static, 1, 1, "", [], None), "/*b", 1, H1, AS_WRITTEN) == Some(BARE)
  {
    BehindCut();
    BehindCounts();
    hide InsertLoop, Wild, FirstWild, SegEnd;
    assert "/*b"[2..] == "b" && "/*b"[..0] == "" && "/*b"[0..] == "/*b";
    LoopAtStar(Node("", false, Static, 1, 1, "", [], None), "/*b", 1, H1, AS_WRITTEN);
  }

  /** The case-insensitive search misses a catch-all behind a parameter, even in the right case. */
  lemma CatchAllBehindParamMissed()
    ensures AddRoute(EMPTY, "/:a/*b", H1, AS_WRITTEN) == Some(BEHIND)
    ensures Tree(BEHIND) && GetValue(BEHIND, "/u/v", Nil).Found?
    ensures !FindCaseInsensitivePath(BEHIND, "/u/v").1
  {
    RegisterBehind();
    TreeBehind();
    BehindFound();
    BehindMissed();
  }

  lemma BehindFound()
    ensures GetValue(BEHIND, "/u/v", Nil).Found?
  {
    assert "/u/v"[1..] == "u/v" && "u/v"[1..] == "/v" && SegEnd("/v") == 0 && SegEnd("u/v") == 1;
    assert GetValue(WRAPPER, "/v", Slice([Patterns.Param("a", "u")], 2)).Found?;
    assert GetValue(BARE, "/v", Slice([Patterns.Param("a", "u")], 2)).Found?;
    assert "u/v"[..1] == "u" && ":a"[1..] == "a";
    assert [] + [Patterns.Param("a", "u")] == [Patterns.Param("a", "u")];
    assert GetWild(PARAM, "u/v", Nil).Found?;
  }

  lemma BehindMissed()
    requires Tree(BEHIND) && WF(PARAM) && WF(BARE)
    ensures !FindCaseInsensitivePath(BEHIND, "/u/v").1
  {
    assert "/u/v"[1..] == "u/v" && "u/v"[1..] == "/v" && SegEnd("/v") == 0 && SegEnd("u/v") == 1 && "u/v"[..1] == "u";
    EmptyTextMissed(BARE, "/v", "" + "/" + "u", '\0');
    assert !FpWild(PARAM, "u/v", "" + "/", '\0').1;
  }
}
