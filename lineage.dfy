/** parse_taxon_element and etree_to_dict: the record the efetch document is turned into.

    The parsed document is a value: a TaxaSet holding Taxon elements. A child element that may be
    absent is an Option; looking it up when it is absent raises AttributeError, as calling .text
    or .find on None does. */
module Lineage {
  import opened Errors
  import opened TaxonIds

  /** A Taxon element: the text of its Rank, ScientificName and TaxId children, and the Taxon
      children of its LineageEx child. An element without text (its .text is None) has the
      empty string here. */
  datatype Taxon = Taxon(
    rank: Option<string>,
    sciName: Option<string>,
    taxId: Option<string>,
    lineageEx: Option<seq<Taxon>>)

  /** The document efetch returns: the Taxon children of the root TaxaSet element. */
  datatype Document = TaxaSet(taxa: seq<Taxon>)

  /** The dictionary {'sci_name': ..., 'taxon_id': ...} of one taxon. */
  datatype Info = Info(sciName: string, taxonId: int)

  /** The pair (rank, info) that parse_taxon_element returns. */
  datatype Entry = Entry(rank: string, info: Info)

  /** The dictionary etree_to_dict returns: the organism's own rank, name and id, and its
      lineage grouped by rank. */
  datatype TaxonInfo = TaxonInfo(rank: string, sciName: string, taxonId: int, lineage: map<string, seq<Info>>)

  /** parse_taxon_element: the children are looked up in the order Rank, ScientificName, TaxId,
      and the TaxId text is converted with int(), which raises TypeError on an element without
      text and ValueError on text that is not an integer. */
  function ParseTaxonElement(t: Taxon): (r: Result<Entry>)
    ensures r.Ok? <==> t.rank.Some? && t.sciName.Some? && t.taxId.Some? && IsIntLiteral(t.taxId.value)
    ensures r.Ok? ==> r.value == Entry(t.rank.value, Info(t.sciName.value, IntValue(t.taxId.value)))
    ensures t.rank.None? ==> r == Err(AttributeError("Rank"))
    ensures t.rank.Some? && t.sciName.None? ==> r == Err(AttributeError("ScientificName"))
    ensures t.rank.Some? && t.sciName.Some? && t.taxId.None? ==> r == Err(AttributeError("TaxId"))
    ensures t.rank.Some? && t.sciName.Some? && t.taxId == Some("") ==> r == Err(TypeError)
    ensures t.rank.Some? && t.sciName.Some? && t.taxId.Some? && t.taxId.value != "" && !IsIntLiteral(t.taxId.value) ==>
      r == Err(ValueError(MalformedTaxId(t.taxId.value)))
  {
    if t.rank.None? then Err(AttributeError("Rank"))
    else if t.sciName.None? then Err(AttributeError("ScientificName"))
    else if t.taxId.None? then Err(AttributeError("TaxId"))
    else if t.taxId.value == "" then Err(TypeError)
    else if !IsIntLiteral(t.taxId.value) then Err(ValueError(MalformedTaxId(t.taxId.value)))
    else Ok(Entry(t.rank.value, Info(t.sciName.value, IntValue(t.taxId.value))))
  }

  /** The Taxon element NCBI would write for an entry, with the given lineage. */
  function TaxonOf(e: Entry, lineageEx: Option<seq<Taxon>>): Taxon {
    Taxon(Some(e.rank), Some(e.info.sciName), Some(ShowInt(e.info.taxonId)), lineageEx)
  }

  /** Parsing reads back what the element holds. */
  lemma ParseTaxonOf(e: Entry, lineageEx: Option<seq<Taxon>>)
    ensures ParseTaxonElement(TaxonOf(e, lineageEx)) == Ok(e)
  {
    IntValueOfShowInt(e.info.taxonId);
  }

  /** The lineage taxa parsed in document order; the first failure is the result. */
  function ParseAll(taxa: seq<Taxon>): (r: Result<seq<Entry>>)
    ensures r.Ok? ==> |r.value| == |taxa|
  {
    if |taxa| == 0 then Ok([])
    else
      var earlier :- ParseAll(taxa[..|taxa| - 1]);
      var last :- ParseTaxonElement(taxa[|taxa| - 1]);
      Ok(earlier + [last])
  }

  /** A successful parse has one entry per taxon, each the parse of that taxon. */
  lemma {:induction false} ParseAllEntries(taxa: seq<Taxon>)
    requires ParseAll(taxa).Ok?
    ensures |ParseAll(taxa).value| == |taxa|
    ensures forall j :: 0 <= j < |taxa| ==> ParseTaxonElement(taxa[j]) == Ok(ParseAll(taxa).value[j])
  {
    if |taxa| > 0 {
      var front := taxa[..|taxa| - 1];
      ParseAllEntries(front);
      assert forall j :: 0 <= j < |front| ==> taxa[j] == front[j];
    }
  }

  /** The failure of the first taxon that does not parse is the failure of the whole lineage. */
  lemma {:induction false} ParseAllFirstError(taxa: seq<Taxon>, i: nat)
    requires i < |taxa|
    requires ParseAll(taxa[..i]).Ok?
    requires ParseTaxonElement(taxa[i]).Err?
    ensures ParseAll(taxa) == Err(ParseTaxonElement(taxa[i]).error)
    decreases |taxa|
  {
    if i < |taxa| - 1 {
      var front := taxa[..|taxa| - 1];
      assert front[..i] == taxa[..i];
      ParseAllFirstError(front, i);
    } else {
      assert taxa[..|taxa| - 1] == taxa[..i];
    }
  }

  /** The ranks that occur among the entries. */
  function RanksOf(entries: seq<Entry>): set<string> {
    set j | 0 <= j < |entries| :: entries[j].rank
  }

  /** The infos of the entries of rank r, in document order. */
  function InfosOfRank(entries: seq<Entry>, r: string): seq<Info> {
    if |entries| == 0 then []
    else
      var last := entries[|entries| - 1];
      InfosOfRank(entries[..|entries| - 1], r) + if last.rank == r then [last.info] else []
  }

  /** The defaultdict(list) that etree_to_dict fills: one list per rank that occurs, and no
      empty list, since a list is only created by appending to it. */
  function GroupByRank(entries: seq<Entry>): (m: map<string, seq<Info>>)
    ensures forall r :: r in m ==> |m[r]| > 0
  {
    PresentRanksListed(entries);
    map r | r in RanksOf(entries) :: InfosOfRank(entries, r)
  }

  /** A rank that occurs has at least one info. */
  lemma {:induction false} PresentRanksListed(entries: seq<Entry>)
    ensures forall r :: r in RanksOf(entries) ==> |InfosOfRank(entries, r)| > 0
  {
    if |entries| > 0 {
      var front := entries[..|entries| - 1];
      PresentRanksListed(front);
      assert RanksOf(entries) == RanksOf(front) + {entries[|entries| - 1].rank} by {
        assert forall j :: 0 <= j < |front| ==> front[j] == entries[j];
      }
    }
  }

  /** A TaxId element without text makes the whole document fail with TypeError. */
  lemma EmptyTaxIdIsTypeError(doc: Document)
    requires |doc.taxa| > 0 && doc.taxa[0].rank.Some? && doc.taxa[0].sciName.Some?
    requires doc.taxa[0].taxId == Some("")
    ensures DocumentToInfo(doc) == Err(TypeError)
  {
  }

  /** Appending an entry appends its info to the list of its own rank, creating the list when the
      rank is new, and leaves every other list alone. */
  lemma GroupByRankAppend(entries: seq<Entry>, e: Entry)
    ensures var m := GroupByRank(entries);
      GroupByRank(entries + [e]) == m[e.rank := (if e.rank in m then m[e.rank] else []) + [e.info]]
  {
    var more := entries + [e];
    assert more[..|more| - 1] == entries;
    assert RanksOf(more) == RanksOf(entries) + {e.rank} by {
      assert forall j :: 0 <= j < |entries| ==> more[j] == entries[j];
      assert more[|entries|] == e;
    }
    var m := GroupByRank(entries);
    var expected := m[e.rank := (if e.rank in m then m[e.rank] else []) + [e.info]];
    forall r | r in expected
      ensures r in GroupByRank(more) && GroupByRank(more)[r] == expected[r]
    {
      assert InfosOfRank(more, r) == InfosOfRank(entries, r) + if e.rank == r then [e.info] else [];
      if r == e.rank && r !in m {
        NoInfosOfAbsentRank(entries, r);
      }
    }
    assert GroupByRank(more).Keys == expected.Keys;
  }

  lemma {:induction false} NoInfosOfAbsentRank(entries: seq<Entry>, r: string)
    requires r !in RanksOf(entries)
    ensures InfosOfRank(entries, r) == []
  {
    if |entries| > 0 {
      var front := entries[..|entries| - 1];
      assert RanksOf(front) <= RanksOf(entries) by {
        assert forall j :: 0 <= j < |front| ==> front[j] == entries[j];
      }
      NoInfosOfAbsentRank(front, r);
      assert entries[|entries| - 1].rank in RanksOf(entries);
    }
  }

  /** The keys of the grouped lineage are exactly the ranks that occur in it. */
  lemma GroupedKeys(entries: seq<Entry>)
    ensures forall j :: 0 <= j < |entries| ==> entries[j].rank in GroupByRank(entries)
    ensures forall r :: r in GroupByRank(entries) ==> exists j :: 0 <= j < |entries| && entries[j].rank == r
  {
  }

  /** Where entry j ends up: its position in the list of its rank is the number of earlier
      entries of that rank. */
  function Position(entries: seq<Entry>, j: nat): nat
    requires j < |entries|
  {
    |InfosOfRank(entries[..j], entries[j].rank)|
  }

  /** Every list only grows as entries are appended: a prefix's list is a prefix of the whole
      list. */
  lemma {:induction false} InfosOfRankPrefix(entries: seq<Entry>, i: nat, r: string)
    requires i <= |entries|
    ensures InfosOfRank(entries[..i], r) <= InfosOfRank(entries, r)
    decreases |entries|
  {
    if i < |entries| {
      var front := entries[..|entries| - 1];
      assert front[..i] == entries[..i];
      InfosOfRankPrefix(front, i, r);
    } else {
      assert entries[..i] == entries;
    }
  }

  /** Every entry lands in the list of its own rank, at its position. */
  lemma EntryPlacement(entries: seq<Entry>, j: nat)
    requires j < |entries|
    ensures var r := entries[j].rank;
      r in GroupByRank(entries)
      && Position(entries, j) < |GroupByRank(entries)[r]|
      && GroupByRank(entries)[r][Position(entries, j)] == entries[j].info
  {
    var r := entries[j].rank;
    var upTo := entries[..j + 1];
    assert upTo[..j] == entries[..j];
    assert InfosOfRank(upTo, r) == InfosOfRank(entries[..j], r) + [entries[j].info];
    InfosOfRankPrefix(entries, j + 1, r);
  }

  /** Entries of the same rank keep their document order in its list. */
  lemma OrderKept(entries: seq<Entry>, i: nat, j: nat)
    requires i < j < |entries| && entries[i].rank == entries[j].rank
    ensures Position(entries, i) < Position(entries, j)
  {
    var r := entries[i].rank;
    var upTo := entries[..j];
    assert upTo[..i + 1] == entries[..i + 1];
    assert entries[..i + 1][..i] == entries[..i];
    assert InfosOfRank(entries[..i + 1], r) == InfosOfRank(entries[..i], r) + [entries[i].info];
    InfosOfRankPrefix(upTo, i + 1, r);
  }

  /** Every info in a rank's list comes from an entry of that rank. */
  lemma {:induction false} ListedInfosHaveTheirRank(entries: seq<Entry>, r: string, x: Info)
    requires x in InfosOfRank(entries, r)
    ensures exists j :: 0 <= j < |entries| && entries[j] == Entry(r, x)
  {
    var front := entries[..|entries| - 1];
    var last := entries[|entries| - 1];
    if x in InfosOfRank(front, r) {
      ListedInfosHaveTheirRank(front, r, x);
      var j :| 0 <= j < |front| && front[j] == Entry(r, x);
      assert entries[j] == front[j];
    } else {
      assert last == Entry(r, x);
    }
  }

  /** The sum of the lengths of the lists under the given ranks. */
  function ListedCount(m: map<string, seq<Info>>, ranks: seq<string>): nat {
    if |ranks| == 0 then 0
    else (if ranks[0] in m then |m[ranks[0]]| else 0) + ListedCount(m, ranks[1..])
  }

  /** The ranks in the order they first occur, each once. */
  function RankOrder(entries: seq<Entry>): (ranks: seq<string>)
    ensures forall a, b :: 0 <= a < b < |ranks| ==> ranks[a] != ranks[b]
    ensures forall r :: r in ranks <==> r in RanksOf(entries)
  {
    if |entries| == 0 then []
    else
      var front := entries[..|entries| - 1];
      var last := entries[|entries| - 1];
      assert RanksOf(entries) == RanksOf(front) + {last.rank} by {
        assert forall j :: 0 <= j < |front| ==> front[j] == entries[j];
      }
      var earlier := RankOrder(front);
      if last.rank in earlier then earlier else earlier + [last.rank]
  }

  /** Growing one list by one entry grows the count over distinct ranks that include its rank by
      one. */
  lemma {:induction false} ListedCountGrow(m: map<string, seq<Info>>, ranks: seq<string>, r: string, x: Info)
    requires forall a, b :: 0 <= a < b < |ranks| ==> ranks[a] != ranks[b]
    ensures ListedCount(m[r := (if r in m then m[r] else []) + [x]], ranks)
      == ListedCount(m, ranks) + if r in ranks then 1 else 0
  {
    if |ranks| > 0 {
      ListedCountGrow(m, ranks[1..], r, x);
      if ranks[0] == r {
        assert r !in ranks[1..];
      }
    }
  }

  lemma {:induction false} ListedCountAppendRank(m: map<string, seq<Info>>, ranks: seq<string>, r: string)
    ensures ListedCount(m, ranks + [r]) == ListedCount(m, ranks) + if r in m then |m[r]| else 0
  {
    if |ranks| > 0 {
      assert (ranks + [r])[1..] == ranks[1..] + [r];
      ListedCountAppendRank(m, ranks[1..], r);
    }
  }

  /** No entry is dropped or merged: the lists hold as many infos together as there are lineage
      taxa. */
  lemma {:induction false} TotalCount(entries: seq<Entry>)
    ensures ListedCount(GroupByRank(entries), RankOrder(entries)) == |entries|
  {
    if |entries| > 0 {
      var front := entries[..|entries| - 1];
      var e := entries[|entries| - 1];
      assert entries == front + [e];
      TotalCount(front);
      var m := GroupByRank(front);
      GroupByRankAppend(front, e);
      var ranks := RankOrder(front);
      ListedCountGrow(m, ranks, e.rank, e.info);
      if e.rank !in ranks {
        var m' := GroupByRank(entries);
        ListedCountAppendRank(m', ranks, e.rank);
        assert e.rank !in m;
      }
    }
  }

  /** etree_to_dict as a function of the document. */
  function DocumentToInfo(doc: Document): Result<TaxonInfo> {
    if |doc.taxa| == 0 then Err(AttributeError("Taxon"))
    else
      var root := doc.taxa[0];
      var top :- ParseTaxonElement(root);
      if root.lineageEx.None? then Err(AttributeError("LineageEx"))
      else
        var entries :- ParseAll(root.lineageEx.value);
        Ok(TaxonInfo(top.rank, top.info.sciName, top.info.taxonId, GroupByRank(entries)))
  }

  /** The organism's own rank, name and id are those of the first Taxon of the document, and its
      lineage is built from exactly the Taxon children of that taxon's LineageEx. */
  lemma DocumentFields(doc: Document)
    requires DocumentToInfo(doc).Ok?
    ensures var info := DocumentToInfo(doc).value;
      |doc.taxa| > 0
      && ParseTaxonElement(doc.taxa[0]) == Ok(Entry(info.rank, Info(info.sciName, info.taxonId)))
      && doc.taxa[0].lineageEx.Some?
      && ParseAll(doc.taxa[0].lineageEx.value).Ok?
      && info.lineage == GroupByRank(ParseAll(doc.taxa[0].lineageEx.value).value)
  {
  }

  /** etree_to_dict: the root taxon is parsed, then the lineage taxa one by one, each appended to
      the list of its rank. */
  method EtreeToDict(doc: Document) returns (r: Result<TaxonInfo>)
    ensures r == DocumentToInfo(doc)
  {
    if |doc.taxa| == 0 {
      return Err(AttributeError("Taxon"));
    }
    var root := doc.taxa[0];
    var top := ParseTaxonElement(root);
    if top.Err? {
      return Err(top.error);
    }
    if root.lineageEx.None? {
      return Err(AttributeError("LineageEx"));
    }
    var taxa := root.lineageEx.value;
    var lineage: map<string, seq<Info>> := map[];
    ghost var entries: seq<Entry> := [];
    var i := 0;
    while i < |taxa|
      invariant 0 <= i <= |taxa|
      invariant ParseAll(taxa[..i]) == Ok(entries)
      invariant lineage == GroupByRank(entries)
    {
      var parsed := ParseTaxonElement(taxa[i]);
      if parsed.Err? {
        ParseAllFirstError(taxa, i);
        return Err(parsed.error);
      }
      var e := parsed.value;
      var list := if e.rank in lineage then lineage[e.rank] else [];
      lineage := lineage[e.rank := list + [e.info]];
      GroupByRankAppend(entries, e);
      assert taxa[..i + 1][..i] == taxa[..i];
      entries := entries + [e];
      i := i + 1;
    }
    assert taxa[..i] == taxa;
    r := Ok(TaxonInfo(top.value.rank, top.value.info.sciName, top.value.info.taxonId, lineage));
  }
}
