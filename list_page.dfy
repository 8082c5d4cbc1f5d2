/** The search-results page (PageParserProbateList): the case listing and its
    header as sequences of fields, the case-type filter that picks detail
    links, and the map from page numbers to paging links. Jsoup selections are
    taken as already made: a data row is its column texts and its resolved
    link, a paging anchor its class names, text and resolved link. */
module ListPage {
  import opened Errors
  import opened Text

  /** One `.data-row` of the results section: the text of each column and the
      absolute href of the case-number link. */
  datatype DataRow = DataRow(
    caseNumber: string,
    lastName: string,
    firstName: string,
    middleInitial: string,
    caseType: string,
    district: string,
    href: string)

  // ---------------------------------------------------------------------------
  // extractCaseListing and extractCaseListHeader
  // ---------------------------------------------------------------------------

  const CaseLinkHeader: string := "Case Link"

  /** The seven fields printed for a data row, in order: case number, the three
      name parts cleaned of commas and quotes, case type, district and link. */
  function ListingFields(row: DataRow): (r: seq<string>)
    ensures |r| == 7
    ensures r[0] == row.caseNumber && r[4] == row.caseType && r[5] == row.district && r[6] == row.href
    ensures NoSeparators(r[1]) && NoSeparators(r[2]) && NoSeparators(r[3])
    ensures |r[1]| == |row.lastName| && |r[2]| == |row.firstName| && |r[3]| == |row.middleInitial|
    ensures r[1] == CleanText(Some(row.lastName)) && r[2] == CleanText(Some(row.firstName))
         && r[3] == CleanText(Some(row.middleInitial))
  {
    [row.caseNumber, CleanText(Some(row.lastName)), CleanText(Some(row.firstName)),
     CleanText(Some(row.middleInitial)), row.caseType, row.district, row.href]
  }

  /** Name parts that hold no comma or quote are printed verbatim. */
  lemma CleanNamesUnchanged(row: DataRow)
    requires NoSeparators(row.lastName) && NoSeparators(row.firstName) && NoSeparators(row.middleInitial)
    ensures ListingFields(row) == [row.caseNumber, row.lastName, row.firstName, row.middleInitial,
                                   row.caseType, row.district, row.href]
  {
    CleanTextKeepsClean(row.lastName);
    CleanTextKeepsClean(row.firstName);
    CleanTextKeepsClean(row.middleInitial);
  }

  /** extractCaseListing: one line of fields per data row, in document order,
      and the number of rows. */
  method ExtractCaseListing(rows: seq<DataRow>) returns (lines: seq<seq<string>>, count: nat)
    ensures count == |rows| && |lines| == |rows|
    ensures forall i :: 0 <= i < |rows| ==> lines[i] == ListingFields(rows[i])
  {
    count := 0;
    lines := [];
    for i := 0 to |rows|
      invariant count == i && |lines| == i
      invariant forall k :: 0 <= k < i ==> lines[k] == ListingFields(rows[k])
    {
      count := count + 1;
      var row := rows[i];
      lines := lines + [[row.caseNumber, CleanText(Some(row.lastName)), CleanText(Some(row.firstName)),
                         CleanText(Some(row.middleInitial)), row.caseType, row.district, row.href]];
    }
  }

  /** extractCaseListHeader: every column-header text, then "Case Link". */
  method ExtractCaseListHeader(headers: seq<string>) returns (fields: seq<string>)
    ensures |fields| == |headers| + 1
    ensures fields[..|headers|] == headers && fields[|headers|] == CaseLinkHeader
  {
    fields := [];
    for i := 0 to |headers|
      invariant fields == headers[..i]
    {
      fields := fields + [headers[i]];
    }
    fields := fields + [CaseLinkHeader];
  }

  // ---------------------------------------------------------------------------
  // extractDetailsLinks(Elements, String)
  // ---------------------------------------------------------------------------

  /** The two strings kept for a selected row: its case number and its link. */
  datatype CaseLink = CaseLink(caseNumber: string, href: string)

  function LinkOf(row: DataRow): CaseLink
  {
    CaseLink(row.caseNumber, row.href)
  }

  /** A row is selected when its case-type text equals the target ignoring case. */
  predicate Selected(target: string, row: DataRow)
  {
    EqualsIgnoreCase(target, row.caseType)
  }

  /** The selected rows' links, in row order. */
  function Matching(rows: seq<DataRow>, target: string): seq<CaseLink>
  {
    if rows == [] then []
    else
      var last := rows[|rows| - 1];
      Matching(rows[..|rows| - 1], target) + (if Selected(target, last) then [LinkOf(last)] else [])
  }

  /** A null target selects nothing. */
  function DetailLinks(rows: seq<DataRow>, target: Option<string>): seq<CaseLink>
  {
    match target
    case None => []
    case Some(t) => Matching(rows, t)
  }

  /** The filter distributes over concatenation: the links of two runs of rows
      are the links of the first followed by those of the second, so the
      result keeps row order. */
  lemma {:induction false} MatchingAppend(a: seq<DataRow>, b: seq<DataRow>, target: string)
    ensures Matching(a + b, target) == Matching(a, target) + Matching(b, target)
  {
    if b != [] {
      var last := b[|b| - 1];
      MatchingAppend(a, b[..|b| - 1], target);
      assert (a + b)[..|a + b| - 1] == a + b[..|b| - 1];
    } else {
      assert a + b == a;
    }
  }

  /** A link is in the result exactly when some selected row has it. */
  lemma {:induction false} MatchingMembers(rows: seq<DataRow>, target: string, link: CaseLink)
    ensures link in Matching(rows, target) <==>
      exists i :: 0 <= i < |rows| && Selected(target, rows[i]) && LinkOf(rows[i]) == link
  {
    if rows != [] {
      var prefix := rows[..|rows| - 1];
      MatchingMembers(prefix, target, link);
      if exists i :: 0 <= i < |rows| && Selected(target, rows[i]) && LinkOf(rows[i]) == link {
        var i :| 0 <= i < |rows| && Selected(target, rows[i]) && LinkOf(rows[i]) == link;
        if i < |prefix| {
          assert prefix[i] == rows[i];
        }
      }
      if exists i :: 0 <= i < |prefix| && Selected(target, prefix[i]) && LinkOf(prefix[i]) == link {
        var i :| 0 <= i < |prefix| && Selected(target, prefix[i]) && LinkOf(prefix[i]) == link;
        assert prefix[i] == rows[i];
      }
    }
  }

  /** There are as many links as selected rows. */
  function CountSelected(rows: seq<DataRow>, target: string): nat
  {
    if rows == [] then 0
    else CountSelected(rows[..|rows| - 1], target) + (if Selected(target, rows[|rows| - 1]) then 1 else 0)
  }

  lemma {:induction false} MatchingLength(rows: seq<DataRow>, target: string)
    ensures |Matching(rows, target)| == CountSelected(rows, target) <= |rows|
  {
    if rows != [] {
      MatchingLength(rows[..|rows| - 1], target);
    }
  }

  /** When the target equals every row's case type ignoring case, every row is
      kept; when it equals none, the result is empty. */
  lemma {:induction false} MatchingAllOrNone(rows: seq<DataRow>, target: string)
    ensures (forall i :: 0 <= i < |rows| ==> Selected(target, rows[i])) ==>
      Matching(rows, target) == seq(|rows|, i requires 0 <= i < |rows| => LinkOf(rows[i]))
    ensures (forall i :: 0 <= i < |rows| ==> !Selected(target, rows[i])) ==> Matching(rows, target) == []
  {
    if rows != [] {
      var prefix := rows[..|rows| - 1];
      MatchingAllOrNone(prefix, target);
      if forall i :: 0 <= i < |rows| ==> Selected(target, rows[i]) {
        assert forall i :: 0 <= i < |prefix| ==> prefix[i] == rows[i];
        var whole := seq(|rows|, i requires 0 <= i < |rows| => LinkOf(rows[i]));
        assert whole == seq(|prefix|, i requires 0 <= i < |prefix| => LinkOf(prefix[i])) + [LinkOf(rows[|rows| - 1])];
      }
      if forall i :: 0 <= i < |rows| ==> !Selected(target, rows[i]) {
        assert forall i :: 0 <= i < |prefix| ==> prefix[i] == rows[i];
      }
    }
  }

  /** The method's loop over the data rows, when a target is given. */
  method ExtractDetailsLinks(rows: seq<DataRow>, caseTypeTarget: Option<string>) returns (pageLinks: seq<CaseLink>)
    ensures pageLinks == DetailLinks(rows, caseTypeTarget)
  {
    pageLinks := [];
    if caseTypeTarget.Some? {
      var target := caseTypeTarget.value;
      for i := 0 to |rows|
        invariant pageLinks == Matching(rows[..i], target)
      {
        var row := rows[i];
        assert rows[..i + 1][..i] == rows[..i];
        if EqualsIgnoreCase(target, row.caseType) {
          pageLinks := pageLinks + [CaseLink(row.caseNumber, row.href)];
        }
      }
      assert rows[..|rows|] == rows;
    }
  }

  // ---------------------------------------------------------------------------
  // extractPageLinks(Elements)
  // ---------------------------------------------------------------------------

  /** A paging anchor: its class names, its text and its resolved link. */
  datatype Anchor = Anchor(classes: set<string>, text: string, href: string)

  const CurrentPage: string := "current-page"

  /** The anchor for the page being shown is not a link to follow. */
  predicate IsLink(a: Anchor)
  {
    CurrentPage !in a.classes
  }

  /** The inner loop over an anchor's class names, stopping at "current-page". */
  method IncludeLink(classNames: set<string>) returns (includeLink: bool)
    ensures includeLink <==> CurrentPage !in classNames
  {
    includeLink := true;
    var remaining := classNames;
    while remaining != {}
      invariant remaining <= classNames
      invariant CurrentPage in classNames <==> CurrentPage in remaining
      decreases |remaining|
    {
      var className :| className in remaining;
      if className == CurrentPage {
        includeLink := false;
        break;
      }
      remaining := remaining - {className};
    }
  }

  /** The map after some anchors: each link anchor is put under the number its
      text parses to, replacing an earlier entry; text that is not an int
      fails the whole extraction. */
  function PageLinks(anchors: seq<Anchor>): Result<map<int, string>>
  {
    if anchors == [] then Ok(map[])
    else
      var last := anchors[|anchors| - 1];
      match PageLinks(anchors[..|anchors| - 1])
      case Err(e) => Err(e)
      case Ok(m) =>
        if !IsLink(last) then Ok(m)
        else
          match ParseInt(last.text)
          case Err(e) => Err(e)
          case Ok(n) => Ok(m[n := last.href])
  }

  /** Anchor `i` is a link anchor whose text parses to `n`. */
  predicate Numbered(anchors: seq<Anchor>, i: int, n: int)
  {
    0 <= i < |anchors| && IsLink(anchors[i]) && ParseInt(anchors[i].text) == Ok(n)
  }

  /** Anchor `i` is a link anchor whose text does not parse. */
  predicate Malformed(anchors: seq<Anchor>, i: int)
  {
    0 <= i < |anchors| && IsLink(anchors[i]) && ParseInt(anchors[i].text).Err?
  }

  /** The extraction fails exactly when some link anchor's text is not an int,
      and then with the NumberFormatException of the first such anchor. */
  lemma {:induction false} PageLinksFailure(anchors: seq<Anchor>)
    ensures PageLinks(anchors).Err? <==> exists i :: Malformed(anchors, i)
    ensures PageLinks(anchors).Err? ==>
      exists i :: Malformed(anchors, i) && PageLinks(anchors).error == NumberFormat(anchors[i].text)
                  && forall j :: 0 <= j < i ==> !Malformed(anchors, j)
  {
    if anchors != [] {
      var prefix := anchors[..|anchors| - 1];
      PageLinksFailure(prefix);
      forall j | 0 <= j < |prefix| ensures Malformed(prefix, j) == Malformed(anchors, j) {
        assert prefix[j] == anchors[j];
      }
      if PageLinks(prefix).Ok? {
        assert forall j :: 0 <= j < |prefix| ==> !Malformed(anchors, j);
        if Malformed(anchors, |prefix|) {
          assert PageLinks(anchors).error == NumberFormat(anchors[|prefix|].text);
        }
      } else {
        var i :| Malformed(prefix, i) && PageLinks(prefix).error == NumberFormat(prefix[i].text)
                 && forall j :: 0 <= j < i ==> !Malformed(prefix, j);
        assert Malformed(anchors, i) && prefix[i] == anchors[i];
      }
    }
  }

  /** On success, a page number is a key exactly when some link anchor's text
      is that number: anchors for the current page are never inserted. */
  lemma {:induction false} PageLinksKeys(anchors: seq<Anchor>, n: int)
    requires PageLinks(anchors).Ok?
    ensures n in PageLinks(anchors).value <==> exists i :: Numbered(anchors, i, n)
  {
    if anchors != [] {
      var prefix := anchors[..|anchors| - 1];
      assert PageLinks(prefix).Ok?;
      PageLinksKeys(prefix, n);
      assert n in PageLinks(anchors).value <==> n in PageLinks(prefix).value || Numbered(anchors, |prefix|, n);
      forall j | 0 <= j < |prefix| ensures Numbered(prefix, j, n) == Numbered(anchors, j, n) {
        assert prefix[j] == anchors[j];
      }
      if exists i :: Numbered(anchors, i, n) {
        var i :| Numbered(anchors, i, n);
        if i < |prefix| {
          assert Numbered(prefix, i, n);
        }
      }
      if exists i :: Numbered(prefix, i, n) {
        var i :| Numbered(prefix, i, n);
        assert Numbered(anchors, i, n);
      }
    }
  }

  /** On success, the link stored under a number is that of the last link
      anchor with that number: later anchors overwrite earlier ones. */
  lemma {:induction false} PageLinksLastWins(anchors: seq<Anchor>, n: int)
    requires PageLinks(anchors).Ok? && n in PageLinks(anchors).value
    ensures exists i :: Numbered(anchors, i, n) && PageLinks(anchors).value[n] == anchors[i].href
                        && forall j :: i < j < |anchors| ==> !Numbered(anchors, j, n)
  {
    assert anchors != [];
    var prefix := anchors[..|anchors| - 1];
    if Numbered(anchors, |prefix|, n) {
      assert PageLinks(anchors).value[n] == anchors[|prefix|].href;
    } else {
      assert PageLinks(prefix).Ok? && n in PageLinks(prefix).value;
      assert PageLinks(anchors).value[n] == PageLinks(prefix).value[n];
      PageLinksLastWins(prefix, n);
      var i :| Numbered(prefix, i, n) && PageLinks(prefix).value[n] == prefix[i].href
               && forall j :: i < j < |prefix| ==> !Numbered(prefix, j, n);
      assert prefix[i] == anchors[i];
      forall j | i < j < |anchors| ensures !Numbered(anchors, j, n) {
        if j < |prefix| {
          assert prefix[j] == anchors[j];
          assert !Numbered(prefix, j, n);
        }
      }
      assert Numbered(anchors, i, n);
    }
  }

  /** Removing an anchor for the current page anywhere in the list changes
      nothing. */
  lemma {:induction false} CurrentPageIgnored(before: seq<Anchor>, current: Anchor, after: seq<Anchor>)
    requires !IsLink(current)
    ensures PageLinks(before + [current] + after) == PageLinks(before + after)
  {
    if after == [] {
      assert (before + [current] + after)[..|before|] == before;
      assert before + after == before;
    } else {
      var init := after[..|after| - 1];
      var last := after[|after| - 1];
      CurrentPageIgnored(before, current, init);
      assert (before + [current] + after)[..|before + [current] + after| - 1] == before + [current] + init;
      assert (before + after)[..|before + after| - 1] == before + init;
    }
  }

  /** The method's loop over the paging anchors. */
  method ExtractPageLinks(anchors: seq<Anchor>) returns (r: Result<map<int, string>>)
    ensures r == PageLinks(anchors)
  {
    var pageLinks: map<int, string> := map[];
    for i := 0 to |anchors|
      invariant PageLinks(anchors[..i]) == Ok(pageLinks)
    {
      var pageLink := anchors[i];
      assert anchors[..i + 1][..i] == anchors[..i];
      var includeLink := IncludeLink(pageLink.classes);
      if includeLink {
        var parsed := ParseInt(pageLink.text);
        if parsed.Err? {
          PageLinksErrorStays(anchors, i + 1);
          return Err(parsed.error);
        }
        var pageNo := parsed.value;
        var link := pageLink.href;
        pageLinks := pageLinks[pageNo := link];
      }
    }
    assert anchors[..|anchors|] == anchors;
    return Ok(pageLinks);
  }

  lemma {:induction false} PageLinksErrorStays(anchors: seq<Anchor>, k: nat)
    requires k <= |anchors| && PageLinks(anchors[..k]).Err?
    ensures PageLinks(anchors) == PageLinks(anchors[..k])
  {
    if k < |anchors| {
      var prefix := anchors[..|anchors| - 1];
      assert prefix[..k] == anchors[..k];
      PageLinksErrorStays(prefix, k);
    } else {
      assert anchors[..k] == anchors;
    }
  }
}
