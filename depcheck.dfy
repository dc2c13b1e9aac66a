/** The dependency-hygiene section of the report (`RunDepcheck` in
    dist/index.js): the unused production dependencies, the unused development
    dependencies and the missing dependencies that `npx depcheck` reports, each
    as a collapsible list of names in ascending order. */
module Depcheck {
  import opened Text
  import opened Json
  import opened Tables

  const PRODUCTION_TITLE := "Unused Production Dependencies"
  const DEVELOPMENT_TITLE := "Unused Dev Dependencies"
  const MISSING_TITLE := "Missing Dependencies"
  const NO_UNUSED_PRODUCTION := "No unused packages " + "in production :smile:"
  const NO_UNUSED_DEVELOPMENT := "No unused packages " + "in development :smile:"
  const NO_MISSING := "No missing packages " + ":smile:"
  const DEPCHECK_HINT := "> to generate " + "this list locally, " + "run `npx " + "depcheck`"

  function ListSummary(title: string, count: nat): string
  {
    "<summary>" + title + ": " + NatToString(count) + "</summary>"
  }

  /** The names, sorted, one item each, then the hint to run `npx depcheck`;
      or the message that there are none. */
  function ListBody(names: seq<string>, none: string): seq<string>
  {
    if names == [] then [none] else Bullets(Sort(names)) + [DEPCHECK_HINT]
  }

  /** One list of the section. The count in the summary is the length of the
      list as `depcheck` gave it. */
  function ListLines(title: string, none: string, names: seq<string>): seq<string>
  {
    Details(ListSummary(title, |names|), ListBody(names, none))
  }

  /** `Object.keys(missing)`: the names of the missing packages. */
  function MissingNames(report: DepcheckReport): (names: seq<string>)
    ensures |names| == |report.missing|
    ensures forall i :: 0 <= i < |names| ==> names[i] == report.missing[i].0
  {
    Keys(report.missing)
  }

  /** The lines of the section: production, development, then missing. */
  function DepcheckLines(report: DepcheckReport): seq<string>
  {
    ListLines(PRODUCTION_TITLE, NO_UNUSED_PRODUCTION, report.dependencies)
    + ListLines(DEVELOPMENT_TITLE, NO_UNUSED_DEVELOPMENT, report.devDependencies)
    + ListLines(MISSING_TITLE, NO_MISSING, MissingNames(report))
  }

  /** Renders the section by appending the three lists to a markdown string. */
  method RunDepcheck(report: DepcheckReport) returns (markdown: string)
    ensures markdown == JoinLines(DepcheckLines(report))
  {
    var production := RenderList(PRODUCTION_TITLE, NO_UNUSED_PRODUCTION, report.dependencies);
    markdown := production;
    ghost var lines := ListLines(PRODUCTION_TITLE, NO_UNUSED_PRODUCTION, report.dependencies);
    var development := RenderList(DEVELOPMENT_TITLE, NO_UNUSED_DEVELOPMENT, report.devDependencies);
    EmitAll(markdown, lines, development, ListLines(DEVELOPMENT_TITLE, NO_UNUSED_DEVELOPMENT, report.devDependencies));
    markdown, lines := markdown + development, lines + ListLines(DEVELOPMENT_TITLE, NO_UNUSED_DEVELOPMENT, report.devDependencies);
    var missingPackageNames := Keys(report.missing);
    var missing := RenderList(MISSING_TITLE, NO_MISSING, missingPackageNames);
    EmitAll(markdown, lines, missing, ListLines(MISSING_TITLE, NO_MISSING, missingPackageNames));
    markdown, lines := markdown + missing, lines + ListLines(MISSING_TITLE, NO_MISSING, missingPackageNames);
    assert lines == DepcheckLines(report);
  }

  /** One `<details>` block of `RunDepcheck`: the summary with the count, then
      the sorted names or the message that there are none. */
  method RenderList(title: string, none: string, names: seq<string>) returns (markdown: string)
    ensures markdown == JoinLines(ListLines(title, none, names))
  {
    markdown := "";
    var summary := ListSummary(title, |names|);
    markdown := markdown + DETAILS_OPEN + "\n" + summary + "\n\n";
    var body := ListBodyText(names, none);
    markdown := markdown + body;
    markdown := markdown + DETAILS_CLOSE + "\n";
    EmitDetails("", [], summary, body, ListBody(names, none));
    assert [] + ListLines(title, none, names) == ListLines(title, none, names);
  }

  /** The part of a block after the summary. */
  method ListBodyText(names: seq<string>, none: string) returns (markdown: string)
    ensures markdown == JoinLines(ListBody(names, none))
  {
    markdown := "";
    ghost var lines: seq<string> := [];
    if |names| == 0 {
      Emit(markdown, lines, none);
      markdown, lines := markdown + none + "\n", lines + [none];
    } else {
      var sorted := Sort(names);
      var items := BulletText(sorted);
      EmitAll(markdown, lines, items, Bullets(sorted));
      markdown, lines := markdown + items, lines + Bullets(sorted);
      Emit(markdown, lines, DEPCHECK_HINT);
      markdown, lines := markdown + DEPCHECK_HINT + "\n", lines + [DEPCHECK_HINT];
    }
    assert lines == ListBody(names, none);
  }

  /** The loop over the sorted names: one list item per name, in order. */
  method BulletText(names: seq<string>) returns (text: string)
    ensures text == JoinLines(Bullets(names))
  {
    text := "";
    assert Bullets(names[..0]) == [];
    for i := 0 to |names|
      invariant text == JoinLines(Bullets(names[..i]))
    {
      BulletsStep(names, i);
      Emit(text, Bullets(names[..i]), Bullet(names[i]));
      text := text + Bullet(names[i]) + "\n";
    }
    assert names[..|names|] == names;
  }

  // ---------------------------------------------------------------------
  // Properties of the section
  // ---------------------------------------------------------------------

  /** A non-empty list shows its count, then one item per name in ascending
      order — the same names, each as often as given — then the hint. */
  lemma ListSorted(title: string, none: string, names: seq<string>)
    requires names != []
    ensures var lines := ListLines(title, none, names);
      var n := |names|;
      |lines| == n + 5
      && lines[1] == "<summary>" + title + ": " + NatToString(n) + "</summary>"
      && (exists sorted: seq<string> ::
            Sorted(sorted) && multiset(sorted) == multiset(names)
            && |sorted| == n
            && (forall i :: 0 <= i < n ==> lines[3 + i] == Bullet(sorted[i])))
      && lines[3 + n] == DEPCHECK_HINT
  {
    ListItems(title, none, names);
    var sorted := Sort(names);
    assert Sorted(sorted) && multiset(sorted) == multiset(names) && |sorted| == |names|;
  }

  /** Where the items of a non-empty list sit. */
  lemma ListItems(title: string, none: string, names: seq<string>)
    requires names != []
    ensures var lines := ListLines(title, none, names);
      var n := |names|;
      |lines| == n + 5
      && lines[1] == ListSummary(title, n)
      && (forall i :: 0 <= i < n ==> lines[3 + i] == Bullet(Sort(names)[i]))
      && lines[3 + n] == DEPCHECK_HINT
  {
    var sorted := Sort(names);
    var bullets := Bullets(sorted);
    var body := ListBody(names, none);
    var summary := ListSummary(title, |names|);
    assert body == bullets + [DEPCHECK_HINT];
    DetailsShape(summary, body);
    DetailsAt(summary, body, |bullets|);
    forall i | 0 <= i < |names| ensures ListLines(title, none, names)[3 + i] == Bullet(sorted[i]) {
      DetailsAt(summary, body, i);
    }
  }

  /** Whatever sorting algorithm the runtime uses, the order is the same:
      every ascending rearrangement of the names is `Sort(names)`. */
  lemma ListOrderIsDetermined(names: seq<string>, sorted: seq<string>)
    requires Sorted(sorted) && multiset(sorted) == multiset(names)
    ensures sorted == Sort(names)
  {
    SortedUnique(sorted, Sort(names));
  }

  /** The name inside a list item. */
  function BulletName(line: string): string
    requires |line| >= 4
  {
    line[3..|line| - 1]
  }

  lemma BulletNameOfBullet(name: string)
    ensures |Bullet(name)| >= 4 && Bullet(name)[0] == '*'
    ensures BulletName(Bullet(name)) == name
  {
    var b := Bullet(name);
    assert b == "* `" + name + "`";
    assert b[3..|b| - 1] == name;
  }

  lemma BulletsHoldNames(names: seq<string>, x: string)
    ensures Bullet(x) in Bullets(names) <==> x in names
  {
    BulletNameOfBullet(x);
    if Bullet(x) in Bullets(names) {
      var k :| 0 <= k < |names| && Bullets(names)[k] == Bullet(x);
      BulletNameOfBullet(names[k]);
    }
    if x in names {
      var k :| 0 <= k < |names| && names[k] == x;
      assert Bullets(names)[k] == Bullet(x);
    }
  }

  lemma InDetails(summary: string, body: seq<string>, line: string)
    requires summary != [] && summary[0] == '<' && line != [] && line[0] != '<'
    ensures line in Details(summary, body) <==> line in body
  {
    var lines := Details(summary, body);
    assert DETAILS_OPEN[0] == '<' && DETAILS_CLOSE[0] == '<';
    if line in lines {
      var k :| 0 <= k < |lines| && lines[k] == line;
      assert 3 <= k < |lines| - 1;
      assert lines[k] == body[k - 3];
    }
    if line in body {
      var k :| 0 <= k < |body| && body[k] == line;
      assert lines[k + 3] == line;
    }
  }

  lemma ListBodyHoldsNames(names: seq<string>, none: string, x: string)
    requires none == [] || none[0] != '*'
    ensures Bullet(x) in ListBody(names, none) <==> x in names
  {
    BulletNameOfBullet(x);
    if names != [] {
      var sorted := Sort(names);
      assert DEPCHECK_HINT[0] == '>';
      assert Bullet(x) in Bullets(sorted) + [DEPCHECK_HINT] <==> Bullet(x) in Bullets(sorted);
      BulletsHoldNames(sorted, x);
      SortKeepsNames(names, x);
    }
  }

  /** The items of a list are exactly the names: a name has an item if and
      only if `depcheck` reported it. */
  lemma ListItemsAreNames(title: string, none: string, names: seq<string>, x: string)
    requires none == [] || none[0] != '*'
    ensures Bullet(x) in ListLines(title, none, names) <==> x in names
  {
    BulletNameOfBullet(x);
    InDetails(ListSummary(title, |names|), ListBody(names, none), Bullet(x));
    ListBodyHoldsNames(names, none, x);
  }

  /** The missing names are exactly the keys of `missing`; with no key the
      only line of the body is the message that nothing is missing. */
  lemma MissingList(report: DepcheckReport)
    ensures forall x :: x in MissingNames(report) <==> exists i :: 0 <= i < |report.missing| && report.missing[i].0 == x
    ensures report.missing == [] ==> ListBody(MissingNames(report), NO_MISSING) == [NO_MISSING]
    ensures report.missing != [] ==> NO_MISSING !in ListBody(MissingNames(report), NO_MISSING)
  {
    if report.missing != [] {
      assert NO_MISSING[0] == 'N';
      MessageNotInList(MissingNames(report), NO_MISSING);
    }
  }

  /** A non-empty list does not show the message for an empty one. */
  lemma MessageNotInList(names: seq<string>, none: string)
    requires names != [] && none != [] && none[0] != '*' && none[0] != '>'
    ensures none !in ListBody(names, none)
  {
    var sorted := Sort(names);
    var bullets := Bullets(sorted);
    assert ListBody(names, none) == bullets + [DEPCHECK_HINT];
    forall k | 0 <= k < |bullets| ensures bullets[k][0] == '*' {
      BulletNameOfBullet(sorted[k]);
    }
    assert DEPCHECK_HINT[0] == '>';
  }

  /** `["zeta", "alpha"]` is listed as `alpha` before `zeta`. */
  lemma SortExample()
    ensures Sort(["zeta", "alpha"]) == ["alpha", "zeta"]
  {
    var s: seq<string> := ["alpha", "zeta"];
    assert LessEq("alpha", "zeta") by {
      assert "alpha"[0] == 'a' && "zeta"[0] == 'z';
    }
    assert Sorted(s);
    assert multiset(s) == multiset(["zeta", "alpha"]);
    SortedUnique(s, Sort(["zeta", "alpha"]));
  }
}
