/** Lookups are not read-only: one of them changes the answer to another. */
module LookupExample {
  import opened Basics
  import opened PathTrie

  lemma SplitStep(c: char, s: string)
    ensures Split([c] + s) == if c == '/' then [""] + Split(s) else [[c] + Split(s)[0]] + Split(s)[1..]
  {
    assert ([c] + s)[1..] == s;
  }

  lemma SplitExamples()
    ensures Split("b") == ["b"] && Split("y/b") == ["y", "b"] && Split("k/b") == ["k", "b"]
    ensures Split("z/y/b") == ["z", "y", "b"]
  {
    SplitStep('b', "");
    assert ['b'] + "" == "b" && [['b'] + ""] + [] == ["b"];
    SplitStep('/', "b");
    assert ['/'] + "b" == "/b" && Split("/b") == ["", "b"];
    SplitStep('y', "/b");
    assert ['y'] + "/b" == "y/b" && ['y'] + "" == "y" && [['y'] + ""] + ["b"] == ["y", "b"];
    SplitStep('k', "/b");
    assert ['k'] + "/b" == "k/b" && ['k'] + "" == "k" && [['k'] + ""] + ["b"] == ["k", "b"];
    SplitStep('/', "y/b");
    assert ['/'] + "y/b" == "/y/b" && Split("/y/b") == ["", "y", "b"];
    SplitStep('z', "/y/b");
    assert ['z'] + "/y/b" == "z/y/b" && ['z'] + "" == "z" && [['z'] + ""] + ["y", "b"] == ["z", "y", "b"];
  }

  const SAME: string -> string := s => s

  lemma KeyExamples()
    ensures Key(SAME, "b") == ["b"] && Key(SAME, "y/b") == ["b", "y"] && Key(SAME, "k/b") == ["b", "k"]
    ensures Key(SAME, "z/y/b") == ["b", "y", "z"]
  {
    SplitExamples();
  }

  /** The tree with `b` and `z/y/b`, the list at `b` being `at`. */
  ghost function TwoFiles(at: seq<string>): Trie {
    map[[] := [], ["b"] := at, ["b", "y"] := [], ["b", "y", "z"] := ["z/y/b"]]
  }

  lemma TwoFilesRun()
    ensures Run(SAME, [Insert("b"), Insert("z/y/b")]) == TwoFiles(["b"])
  {
    KeyExamples();
    hide Key, Split;
    var ops := [Insert("b"), Insert("z/y/b")];
    var one: Trie := map[[] := [], ["b"] := ["b"]];
    assert ops[..1] == [Insert("b")] && ops[..1][..0] == [];
    var k: Position := ["b"];
    assert k[..1] == k && Planted(EMPTY, k, 0) == EMPTY && Planted(EMPTY, k, 1) == EMPTY[k := []];
    assert Run(SAME, []) == EMPTY && [] + ["b"] == ["b"];
    assert Run(SAME, ops[..1]) == one;
    var key: Position := ["b", "y", "z"];
    assert key[..1] == ["b"] && key[..2] == ["b", "y"] && key[..3] == key;
    assert Planted(one, key, 1) == one;
    assert Planted(one, key, 2) == one[key[..2] := []];
    assert Planted(one, key, 3) == one[key[..2] := []][key := []];
    assert [] + ["z/y/b"] == ["z/y/b"];
    assert Inserted(SAME, one, "z/y/b") == one[key[..2] := []][key := ["z/y/b"]];
    assert ops[1] == Insert("z/y/b") && Run(SAME, ops) == Inserted(SAME, one, "z/y/b");
  }

  lemma TwoFilesLookup()
    ensures Found(TwoFiles(["b"]), Key(SAME, "y/b")).0 == TwoFiles(["b", "z/y/b"])
  {
    KeyExamples();
    hide Key, Split;
    var t, key := TwoFiles(["b"]), ["b", "y"];
    var p: Position := ["b", "y"];
    assert key[..1] == ["b"] && key[..2] == key;
    BranchesLeadOn(t, p, "z");
    assert p + ["z"] == ["b", "y", "z"];
    assert Branches(t, p) == {"z"} by {
      forall c | c in Branches(t, p) ensures c == "z" {
        BranchesLeadOn(t, p, c);
        assert (p + [c])[2] == c;
      }
    }
    OnlyIs(Branches(t, p), "z");
    assert Drilled(t, p) == Some(["b", "y", "z"]);
    assert FoundFrom(t, key, 2, Some(1), false).0 == t[["b"] := ["b"] + ["z/y/b"]];
    assert FoundFrom(t, key, 1, Some(1), true).0 == t[["b"] := ["b"] + ["z/y/b"]];
    assert FoundFrom(t, key, 0, None, false).0 == t[["b"] := ["b"] + ["z/y/b"]];
    assert ["b"] + ["z/y/b"] == ["b", "z/y/b"];
  }

  lemma OneComponentFound(at: seq<string>)
    requires at != []
    ensures Found(TwoFiles(at), Key(SAME, "k/b")).1 == at
  {
    KeyExamples();
    hide Key, Split;
    var t, key := TwoFiles(at), ["b", "k"];
    assert key[..1] == ["b"] && key[..2] == key && key !in t;
    assert FoundFrom(t, key, 1, Some(1), true).1 == at;
  }

  /**
   A lookup of `y/b` makes `z/y/b` an answer to the unrelated query `k/b`, when the two files are
   equally similar to it. They are for a ratio of twice the matching characters to all characters:
   `b` has 2 * 1 of 4, and `z/y/b` has 2 * 2 of 8.
   */
  lemma LookupChangesLaterAnswer(ratio: (string, string) -> real)
    requires Similarity(ratio) && ratio("k/b", "z/y/b") == ratio("k/b", "b")
    ensures var t := Run(SAME, [Insert("b"), Insert("z/y/b")]);
            && Answer(SAME, ratio, t, "k/b", 0) == Some("b")
            && Answer(SAME, ratio, Step(SAME, t, Lookup("y/b")), "k/b", 0) == Some("z/y/b")
  {
    hide Key, Run, Found;
    TwoFilesRun();
    TwoFilesLookup();
    OneComponentFound(["b"]);
    OneComponentFound(["b", "z/y/b"]);
    var r := Reversed(["b", "z/y/b"]);
    assert r == ["z/y/b", "b"] && r[..1] == ["z/y/b"] && r[..1][..0] == [];
    assert Best(ratio, "k/b", r[..1]) == (ratio("k/b", "z/y/b"), "z/y/b");
  }
}
