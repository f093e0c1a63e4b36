/** species_to_dict, get_taxon_data and handle_typo: looking organisms up and merging them into
    the stored taxon data.

    The network is a Service: for every query it gives the oracle of attempt outcomes the retry
    loop meets. The JSON file is the map passed in and the map or failure handed back; the set of
    directory names is passed in. */
module Cache {
  import opened Errors
  import opened Names
  import opened TaxonIds
  import opened Requests
  import opened Lineage

  /** The NCBI endpoints: esearch answers a term with an id list, efetch answers an id with a
      parsed document. */
  datatype Service = Service(
    search: string -> nat -> Attempt<seq<string>>,
    fetch: nat -> nat -> Attempt<Document>)

  /** The max_attempts that esearch_req and efetch_req leave at make_req's default. */
  const MaxAttempts: int := 3

  /** species_to_dict: search for the id, check it, fetch the record, turn it into the dictionary.
      The first exception raised is the result. */
  function SpeciesToDict(species: string, service: Service): Result<TaxonInfo> {
    var idList :- Retry(service.search(species), MaxAttempts).result;
    var taxid :- SpeciesToId(idList);
    var doc :- Retry(service.fetch(taxid), MaxAttempts).result;
    DocumentToInfo(doc)
  }

  /** In the model a ValueError never comes from the network: it means the search answered and either its id
      list was refused or the fetched record holds a TaxId that int() rejects. */
  lemma ValueErrorMeansBadData(species: string, service: Service)
    requires SpeciesToDict(species, service).Err? && SpeciesToDict(species, service).error.ValueError?
    ensures var search := Retry(service.search(species), MaxAttempts).result;
      search.Ok? && (SpeciesToId(search.value).Err?
        || (var doc := Retry(service.fetch(SpeciesToId(search.value).value), MaxAttempts).result;
            doc.Ok? && DocumentToInfo(doc.value).Err? && DocumentToInfo(doc.value).error.reason.MalformedTaxId?))
  {
    RetryErrors(service.search(species), MaxAttempts);
    var search := Retry(service.search(species), MaxAttempts).result;
    if SpeciesToId(search.value).Ok? {
      RetryErrors(service.fetch(SpeciesToId(search.value).value), MaxAttempts);
      var doc := Retry(service.fetch(SpeciesToId(search.value).value), MaxAttempts).result.value;
      DocumentErrors(doc);
    }
  }

  /** The only ValueError etree_to_dict raises is the one of a malformed TaxId. */
  lemma DocumentErrors(doc: Document)
    requires DocumentToInfo(doc).Err? && DocumentToInfo(doc).error.ValueError?
    ensures DocumentToInfo(doc).error.reason.MalformedTaxId?
  {
    var root := doc.taxa[0];
    if ParseTaxonElement(root).Ok? {
      ParseAllErrors(root.lineageEx.value);
    }
  }

  lemma {:induction false} ParseAllErrors(taxa: seq<Taxon>)
    requires ParseAll(taxa).Err? && ParseAll(taxa).error.ValueError?
    ensures ParseAll(taxa).error.reason.MalformedTaxId?
  {
    if ParseAll(taxa[..|taxa| - 1]).Err? {
      ParseAllErrors(taxa[..|taxa| - 1]);
    }
  }

  /** When every search attempt meets an HTTP error, the lookup fails with HTTPError after
      max_attempts + 1 attempts, and that is not a ValueError. */
  lemma SearchDownIsHttpError(species: string, service: Service)
    requires forall j :: 0 <= j <= MaxAttempts ==> service.search(species)(j).HttpFailure?
    ensures SpeciesToDict(species, service) == Err(HttpError)
  {
  }

  /** A search and a fetch that deliver at the first attempt give the record of the fetched
      document. */
  lemma FirstAttemptsDeliver(species: string, service: Service, n: nat)
    requires service.search(species)(0) == Delivered([ShowNat(n)])
    requires service.fetch(n)(0).Delivered?
    ensures SpeciesToDict(species, service) == DocumentToInfo(service.fetch(n)(0).response)
  {
    FirstDeliveryReturned(service.search(species), MaxAttempts, 0);
    SpeciesToIdOfShowNat(n);
    FirstDeliveryReturned(service.fetch(n), MaxAttempts, 0);
  }

  /** species_to_dict, request by request. */
  method FetchSpecies(species: string, service: Service) returns (r: Result<TaxonInfo>)
    ensures r == SpeciesToDict(species, service)
  {
    var search := MakeReq(service.search(species), MaxAttempts);
    if search.result.Err? {
      return Err(search.result.error);
    }
    var taxid := SpeciesToId(search.result.value);
    if taxid.Err? {
      return Err(taxid.error);
    }
    var fetched := MakeReq(service.fetch(taxid.value), MaxAttempts);
    if fetched.result.Err? {
      return Err(fetched.result.error);
    }
    r := EtreeToDict(fetched.result.value);
  }

  /** The record stored under a directory name: the lookup of its preprocessed name. */
  function Resolve(service: Service, dirName: string): Result<TaxonInfo> {
    SpeciesToDict(PreprocessName(dirName), service)
  }

  /** Directory names not yet stored. */
  function NewNames(stored: map<string, TaxonInfo>, directoryNames: set<string>): (pending: set<string>)
    ensures pending <= directoryNames && pending !! stored.Keys
    ensures directoryNames <= pending + stored.Keys
  {
    directoryNames - stored.Keys
  }

  /** A lookup failure that the batch loop does not catch. */
  predicate Fatal(service: Service, dirName: string) {
    Resolve(service, dirName).Err? && !Resolve(service, dirName).error.ValueError?
  }

  /** The names whose lookup succeeds, and those whose lookup raises ValueError. */
  function Accepted(service: Service, names: set<string>): set<string> {
    set n | n in names && Resolve(service, n).Ok?
  }

  function Rejected(service: Service, names: set<string>): set<string> {
    set n | n in names && Resolve(service, n).Err? && Resolve(service, n).error.ValueError?
  }

  /** The stored data with the records of the accepted names added under their directory names. */
  function Merged(stored: map<string, TaxonInfo>, service: Service, names: set<string>): (m: map<string, TaxonInfo>)
    requires names !! stored.Keys
  {
    map k | k in stored.Keys + Accepted(service, names) :: if k in stored then stored[k] else Resolve(service, k).value
  }

  /** Merging keeps every stored entry, also those of directories that no longer exist, adds
      exactly the accepted names, each with its own lookup's record, and nothing else. */
  lemma MergedContents(stored: map<string, TaxonInfo>, service: Service, names: set<string>)
    requires names !! stored.Keys
    ensures var m := Merged(stored, service, names);
      (forall k :: k in stored ==> k in m && m[k] == stored[k])
      && (forall k :: k in names ==> (k in m <==> Resolve(service, k).Ok?))
      && (forall k :: k in m && k !in stored ==> k in names && Resolve(service, k) == Ok(m[k]))
  {
  }

  /** What the batch can end in: the data written back and the failed names, or an exception
      that escapes before anything is written. */
  datatype Sync = Saved(data: map<string, TaxonInfo>, failed: seq<string>) | Aborted(error: Error)

  /** Adding one accepted name to the processed ones adds its record. */
  lemma MergedStep(stored: map<string, TaxonInfo>, service: Service, done: set<string>, name: string)
    requires done !! stored.Keys && name !in stored && name !in done
    requires Resolve(service, name).Ok?
    ensures Merged(stored, service, done + {name}) == Merged(stored, service, done)[name := Resolve(service, name).value]
  {
  }

  lemma MergedSkip(stored: map<string, TaxonInfo>, service: Service, done: set<string>, name: string)
    requires done !! stored.Keys && name !in stored
    requires Resolve(service, name).Err?
    ensures Merged(stored, service, done + {name}) == Merged(stored, service, done)
  {
  }

  /** get_taxon_data: every directory name not yet stored is looked up once, in an arbitrary
      order; a success is stored under the directory name, a ValueError adds the name to the
      failed list, and any other exception ends the run before the data is written. */
  method GetTaxonData(stored: map<string, TaxonInfo>, directoryNames: set<string>, service: Service)
    returns (sync: Sync)
    ensures sync.Saved? <==> forall n :: n in NewNames(stored, directoryNames) ==> !Fatal(service, n)
    ensures sync.Saved? ==> sync.data == Merged(stored, service, NewNames(stored, directoryNames))
    ensures sync.Saved? ==> (forall n :: n in sync.failed <==> n in Rejected(service, NewNames(stored, directoryNames)))
    ensures sync.Saved? ==> forall a, b :: 0 <= a < b < |sync.failed| ==> sync.failed[a] != sync.failed[b]
    ensures sync.Saved? ==> |sync.data.Keys - stored.Keys| + |sync.failed| == |NewNames(stored, directoryNames)|
    ensures sync.Aborted? ==>
      exists n :: n in NewNames(stored, directoryNames) && Fatal(service, n) && sync.error == Resolve(service, n).error
  {
    var newNames := directoryNames - stored.Keys;
    sync := RetrieveAll(stored, newNames, service);
    if sync.Saved? {
      MergedCount(stored, service, newNames);
      DistinctCount(sync.failed, Rejected(service, newNames));
    }
  }

  /** The loop of get_taxon_data over the new directory names. */
  method RetrieveAll(stored: map<string, TaxonInfo>, newNames: set<string>, service: Service)
    returns (sync: Sync)
    requires newNames !! stored.Keys
    ensures sync.Saved? <==> forall n :: n in newNames ==> !Fatal(service, n)
    ensures sync.Saved? ==> sync.data == Merged(stored, service, newNames)
    ensures sync.Saved? ==> (forall n :: n in sync.failed <==> n in Rejected(service, newNames))
    ensures sync.Saved? ==> forall a, b :: 0 <= a < b < |sync.failed| ==> sync.failed[a] != sync.failed[b]
    ensures sync.Aborted? ==>
      exists n :: n in newNames && Fatal(service, n) && sync.error == Resolve(service, n).error
  {
    var taxonData := stored;
    var failedToRetrieve: seq<string> := [];
    var remaining := newNames;
    while remaining != {}
      invariant remaining <= newNames
      invariant forall n :: n in newNames - remaining ==> !Fatal(service, n)
      invariant taxonData == Merged(stored, service, newNames - remaining)
      invariant forall n :: n in failedToRetrieve <==> n in Rejected(service, newNames - remaining)
      invariant forall a, b :: 0 <= a < b < |failedToRetrieve| ==> failedToRetrieve[a] != failedToRetrieve[b]
      decreases remaining
    {
      var dirName :| dirName in remaining;
      var done := newNames - remaining;
      var next := Visit(stored, service, done, dirName, taxonData, failedToRetrieve);
      if next.Aborted? {
        assert dirName in newNames && Fatal(service, dirName);
        return next;
      }
      taxonData, failedToRetrieve := next.data, next.failed;
      assert newNames - (remaining - {dirName}) == done + {dirName};
      remaining := remaining - {dirName};
    }
    assert newNames - remaining == newNames;
    sync := Saved(taxonData, failedToRetrieve);
  }

  /** One pass of the loop body of get_taxon_data: look up one directory name, store its record
      on success, add it to the failed list on ValueError, and let any other exception escape. */
  method Visit(stored: map<string, TaxonInfo>, service: Service, done: set<string>, dirName: string,
               taxonData: map<string, TaxonInfo>, failed: seq<string>)
    returns (next: Sync)
    requires done !! stored.Keys && dirName !in stored && dirName !in done
    requires taxonData == Merged(stored, service, done)
    requires forall n :: n in failed <==> n in Rejected(service, done)
    requires forall a, b :: 0 <= a < b < |failed| ==> failed[a] != failed[b]
    ensures next.Saved? <==> !Fatal(service, dirName)
    ensures next.Saved? ==> next.data == Merged(stored, service, done + {dirName})
    ensures next.Saved? ==> (forall n :: n in next.failed <==> n in Rejected(service, done + {dirName}))
    ensures next.Saved? ==> forall a, b :: 0 <= a < b < |next.failed| ==> next.failed[a] != next.failed[b]
    ensures next.Aborted? ==> next.error == Resolve(service, dirName).error
  {
    var taxonDict := FetchSpecies(PreprocessName(dirName), service);
    RejectedStep(service, done, dirName);
    if taxonDict.Ok? {
      MergedStep(stored, service, done, dirName);
      next := Saved(taxonData[dirName := taxonDict.value], failed);
    } else if taxonDict.error.ValueError? {
      MergedSkip(stored, service, done, dirName);
      next := Saved(taxonData, failed + [dirName]);
    } else {
      next := Aborted(taxonDict.error);
    }
  }

  /** A list without repetitions has as many elements as the set of its elements. */
  lemma {:induction false} DistinctCount(xs: seq<string>, s: set<string>)
    requires forall a, b :: 0 <= a < b < |xs| ==> xs[a] != xs[b]
    requires forall x :: x in xs <==> x in s
    ensures |xs| == |s|
  {
    if |xs| > 0 {
      var rest := xs[1..];
      assert forall x :: x in rest <==> x in s - {xs[0]} by {
        assert forall k :: 0 <= k < |rest| ==> rest[k] == xs[k + 1];
      }
      DistinctCount(rest, s - {xs[0]});
    } else {
      assert s == {} by {
        assert forall x :: x !in s;
      }
    }
  }

  /** A name processed by the loop joins the rejected ones exactly when its lookup raised
      ValueError. */
  lemma RejectedStep(service: Service, done: set<string>, name: string)
    requires name !in done
    ensures var now := Rejected(service, done + {name});
      if Resolve(service, name).Err? && Resolve(service, name).error.ValueError?
      then now == Rejected(service, done) + {name} && name !in Rejected(service, done)
      else now == Rejected(service, done)
  {
  }

  /** Without fatal failures, the names added and the names rejected together are as many as the
      new names. */
  lemma MergedCount(stored: map<string, TaxonInfo>, service: Service, names: set<string>)
    requires names !! stored.Keys
    requires forall n :: n in names ==> !Fatal(service, n)
    ensures |Merged(stored, service, names).Keys - stored.Keys| + |Rejected(service, names)| == |names|
  {
    AcceptedOrRejected(service, names);
    assert Merged(stored, service, names).Keys - stored.Keys == Accepted(service, names);
  }

  /** A name not yet stored is either accepted, rejected or fatal; without fatal ones, the stored
      names and the failed names together are the new names. */
  lemma AcceptedOrRejected(service: Service, names: set<string>)
    requires forall n :: n in names ==> !Fatal(service, n)
    ensures Accepted(service, names) + Rejected(service, names) == names
    ensures Accepted(service, names) !! Rejected(service, names)
    ensures |Accepted(service, names)| + |Rejected(service, names)| == |names|
  {
  }

  /** A second run over the same directories looks up exactly the names that failed in the first
      run: the new names of the merged data are the rejected ones. */
  lemma RerunRetriesFailures(stored: map<string, TaxonInfo>, directoryNames: set<string>, service: Service)
    requires forall n :: n in NewNames(stored, directoryNames) ==> !Fatal(service, n)
    ensures var pending := NewNames(stored, directoryNames);
      NewNames(Merged(stored, service, pending), directoryNames) == Rejected(service, pending)
  {
  }

  /** handle_typo: the record of the corrected name is looked up first; only when that succeeds is
      the stored data read and the record stored under the original, misspelled name. */
  method HandleTypo(original: string, corrected: string, stored: map<string, TaxonInfo>, service: Service)
    returns (r: Result<map<string, TaxonInfo>>)
    ensures r.Ok? <==> Resolve(service, corrected).Ok?
    ensures r.Err? ==> r.error == Resolve(service, corrected).error
    ensures r.Ok? ==> r.value.Keys == stored.Keys + {original}
    ensures r.Ok? ==> r.value[original] == Resolve(service, corrected).value
    ensures r.Ok? ==> forall k :: k in stored && k != original ==> r.value[k] == stored[k]
  {
    var organismName := PreprocessName(corrected);
    var taxonDict := FetchSpecies(organismName, service);
    if taxonDict.Err? {
      return Err(taxonDict.error);
    }
    var taxonData := stored;
    taxonData := taxonData[original := taxonDict.value];
    r := Ok(taxonData);
  }
}
