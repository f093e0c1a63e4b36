# Taxonomy client of water-bugs-2, modelled in Dafny

`taxonomy.py` turns the names of the directories of an image dataset into taxonomy records
fetched from NCBI's E-utilities and keeps them in a JSON file keyed by directory name. This
project models, with the network, the XML parser and the filesystem replaced by values:

- the name normaliser `preprocess_name` (module `Names`, `names.dfy`): one left-to-right
  `re.sub` pass deleting `_sp`, `_adult` and `_larva`, a `split('_')` that keeps empty pieces,
  and the `first+last` query name;
- the id-list check of `species_to_id` and the decimal text it converts (module `TaxonIds`,
  `taxon_ids.dfy`);
- the retry loop `make_req` over an oracle of attempt outcomes (module `Requests`,
  `requests.dfy`): a method with a loop, proved equal to a recursive reference definition, and
  lemmas about that definition;
- `parse_taxon_element` and `etree_to_dict` over a parsed `TaxaSet` document (module `Lineage`,
  `lineage.dfy`): the loop that appends every lineage taxon to the list of its rank, proved
  equal to a grouping function, and lemmas about placement, order and counts;
- `species_to_dict`, the merge loop of `get_taxon_data` and `handle_typo` (module `Cache`,
  `cache.dfy`);
- the exceptions, as a `Result` type (module `Errors`, `errors.dfy`).

The network is a `Service` value: for every search term and every taxon id it gives the outcome
of each attempt (`Delivered`, `HttpFailure`, `OtherFailure`). The JSON file is the map passed in
and the map handed back; the dataset directory is the set of names passed in.

The model follows what the code does, in particular:

- `make_req` catches and retries only `requests.HTTPError` (taxonomy.py:46-50); a connection
  error or timeout leaves `make_req` at the attempt that raised it, without a retry;
- the batch loop of `get_taxon_data` catches only `ValueError` (taxonomy.py:272); an HTTP error,
  another request error, an `AttributeError` from a record with a missing element or the
  `TypeError` of `int(None)` from a TaxId element without text ends the run before the JSON file
  is written (taxonomy.py:277-278), so no entry of that run is saved;
- the new names are visited in the iteration order of a Python set (taxonomy.py:255, 262); the
  model picks them in an arbitrary order; whether the run saves, the saved data and the set of
  failed names do not depend on that order (which uncaught exception ends a failing run does);
- `_sp`, `_adult` and `_larva` are deleted anywhere in the name (taxonomy.py:210), also at the
  start of an epithet (`Baetis_spinosus` becomes `Baetisinosus`), although the docstring at
  taxonomy.py:203 speaks of names that end with them;
- no delay is inserted between the search and the fetch: `SLEEP_INTERVAL` (taxonomy.py:18) is
  defined but never used.

## Model

| member | source | states |
|---|---|---|
| `Names.StripNoise` | taxonomy.py:210 | the single `re.sub` pass; its output is never longer than its input |
| `Names.StripNoiseClean` | taxonomy.py:210 | a name without an underscore holds no noise word and is left unchanged |
| `Names.StripNoiseConcat` | taxonomy.py:210 | the pass works piecewise at a boundary followed by an underscore: no match spans it |
| `Names.NoiseWordsVanish` | taxonomy.py:210 | each of `_sp`, `_adult`, `_larva` begins with `_` and is deleted completely |
| `Names.NoiseSuffixDropped` | taxonomy.py:203-210 | appending a noise word to a name does not change its query name |
| `Names.StripNoiseOfCleanJoin` | taxonomy.py:210 | pieces without underscores, none after the first beginning with a noise word's letters, pass through the deletion unchanged |
| `Names.Split` | taxonomy.py:210 | `split('_')`: at least one piece, no piece holds `_`, and joining the pieces with `_` gives the text back (empty pieces kept) |
| `Names.SplitJoin` | taxonomy.py:210 | splitting the `_`-join of pieces without underscores gives exactly those pieces |
| `Names.SplitLast` | taxonomy.py:210-212 | the last piece of a split is the text after the last underscore |
| `Names.SplitLastPiece` | taxonomy.py:210-212 | the last piece of splitting `a_b`, `b` without an underscore, is `b`, whatever `a` holds |
| `Names.PreprocessName` | taxonomy.py:210-214 | the query name never contains `_` |
| `Names.PreprocessNameEnds` | taxonomy.py:210-212 | with two or more pieces the query name is the text before the first and after the last underscore of the stripped name, joined by `+`; middle pieces are discarded |
| `Names.PreprocessNameSinglePart` | taxonomy.py:213-214 | when no underscore is left after the deletion, the stripped name is returned unchanged |
| `Names.QueryOf` | taxonomy.py:210-214 | the query name built from a stripped name never contains `_` |
| `Names.SameStripSameQuery` | taxonomy.py:210-214 | the query name depends on the directory name only through the stripped name |
| `Names.PreprocessNameOfPieces` | taxonomy.py:210-214 | if stripping leaves pieces `p0`, ..., `pn` joined by `_`, the query name is `p0+pn`, or `p0` for one piece |
| `Names.CleanNameQuery` | taxonomy.py:210-214 | a clean name `First_..._Last` gives `First+Last`, a single clean part gives itself |
| `Names.ExampleBinomial` | taxonomy.py:198 | `Asellus_aquaticus` gives `Asellus+aquaticus` |
| `Names.ExampleSinglePart` | taxonomy.py:198 | `Chelifera` gives `Chelifera` |
| `Names.ExampleThreeParts` | taxonomy.py:199 | `Ephemerella_aroni_aurivillii` gives `Ephemerella+aurivillii` |
| `Names.ExampleTrailingUnderscore` | taxonomy.py:210-212 | `Foo_` splits into `Foo` and an empty piece and gives `Foo+` |
| `Names.ExampleNoiseSuffixes` | taxonomy.py:203 | `Foo_sp` and `Foo_adult_larva` give `Foo` |
| `Names.SinglePassOnly` | taxonomy.py:210 | the deletion is not a fixpoint: `_s_spp` becomes `_sp`, which a second pass would delete, and `A_s_spp` gives `A+sp` |
| `Names.SpPrefixDropped` | taxonomy.py:210 | a genus and an epithet glued by `_sp`, both without underscores, lose the `_sp` and give one part |
| `Names.NoiseInsideEpithet` | taxonomy.py:210 | `Baetis_spinosus` gives `Baetisinosus` |
| `TaxonIds.IsDecimal` | taxonomy.py:115 | `str.isdigit`: a non-empty text made only of digits (a predicate; its partners are `ShowNat`'s contract and `SpeciesToId`) |
| `TaxonIds.DecimalValue` | taxonomy.py:118 | `int` of a text of digits, most significant digit first; `DecimalValueOfShowNat` and `LeadingZero` state what it reads |
| `TaxonIds.ShowNat` | taxonomy.py:118 | the decimal text of a natural number is a non-empty text of digits, which `DecimalValueOfShowNat` reads back |
| `TaxonIds.IntValue` | taxonomy.py:179 | `int` of an optionally signed text of digits; `IntValueOfShowInt` states that it reads back every integer |
| `TaxonIds.SpeciesToId` | taxonomy.py:110-118 | succeeds exactly when the id list has one entry made only of digits, and then returns its decimal value; otherwise a `ValueError`, for more than one id first, then for no id, then for a non-digit id |
| `TaxonIds.DecimalValueOfShowNat` | taxonomy.py:118 | `int` reads back the decimal text of every natural number |
| `TaxonIds.LeadingZero` | taxonomy.py:118 | a leading zero does not change the value read by `int` |
| `TaxonIds.SpeciesToIdOfShowNat` | taxonomy.py:110-118 | a search answering exactly the text of an id yields that id |
| `TaxonIds.IntValueOfShowInt` | taxonomy.py:179 | `int(str(i)) == i` for every integer, negative ones included |
| `Requests.RetryFrom` | taxonomy.py:38-51 | the reference run from attempt `i`: no attempt exactly when `i > max_attempts`, otherwise at most `max_attempts + 1 - i` attempts and one sleep fewer than attempts |
| `Requests.Retry` | taxonomy.py:38-51 | the reference run of `make_req`: no attempt when `max_attempts < 0`, otherwise between 1 and `max_attempts + 1` attempts with one sleep between consecutive ones |
| `Requests.MakeReq` | taxonomy.py:38-51 | the loop of `make_req`, attempt by attempt, gives the reply of the reference definition `Retry` |
| `Requests.RetryAfterHttpFailures` | taxonomy.py:38-50 | after `i` attempts that all met an HTTP error, the run continues as the run from attempt `i`, with `i` more attempts and sleeps |
| `Requests.RetryDecided` | taxonomy.py:38-50 | with `max_attempts >= 0`: between 1 and `max_attempts + 1` attempts, every attempt but the last met an HTTP error, the last one's response is returned or its exception raised, an HTTP error is raised only by the final permitted attempt, and one sleep separates consecutive attempts |
| `Requests.FirstDeliveryReturned` | taxonomy.py:40-45 | the first response delivered within the permitted attempts is returned, after `k + 1` attempts and `k` sleeps |
| `Requests.OtherFailureNotRetried` | taxonomy.py:39-46 | an exception other than `HTTPError` escapes at the attempt that raised it |
| `Requests.AllHttpFailuresReraised` | taxonomy.py:46-48 | when all `max_attempts + 1` attempts meet an HTTP error, `HTTPError` is raised after exactly that many attempts |
| `Requests.NoAttemptsWhenNegative` | taxonomy.py:38-51 | with `max_attempts < 0` nothing is attempted and `HTTPError` is raised |
| `Requests.RetryErrors` | taxonomy.py:38-51 | the only exceptions leaving `make_req` are `HTTPError` and the other request errors |
| `Requests.RetryIgnoresLaterOutcomes` | taxonomy.py:38 | outcomes after attempt `max_attempts` never matter |
| `Lineage.ParseTaxonElement` | taxonomy.py:176-181 | succeeds exactly when Rank, ScientificName and TaxId are present and the TaxId text is an integer, giving the rank and `{sci_name, taxon_id}`; otherwise `AttributeError` for the first missing element in that order, `TypeError` for a TaxId element without text, or `ValueError` for a malformed TaxId |
| `Lineage.ParseAll` | taxonomy.py:159-161 | the parse of the lineage taxa in document order, stopping at the first failure; a success has one entry per taxon |
| `Lineage.ParseTaxonOf` | taxonomy.py:176-181 | parsing an element written from an entry gives that entry back |
| `Lineage.ParseAllEntries` | taxonomy.py:159-161 | a successful lineage parse has one entry per `LineageEx` taxon, each the parse of that taxon |
| `Lineage.ParseAllFirstError` | taxonomy.py:160-161 | the exception of the first taxon that does not parse is the exception of the whole lineage |
| `Lineage.GroupByRank` | taxonomy.py:158-162 | the `defaultdict(list)` of the lineage: one list per rank that occurs, none of them empty |
| `Lineage.PresentRanksListed` | taxonomy.py:160-162 | every rank that occurs among the lineage taxa has at least one info |
| `Lineage.GroupByRankAppend` | taxonomy.py:158-162 | appending an entry appends its info to the list of its own rank, creating the list for a new rank, and leaves every other list alone |
| `Lineage.GroupedKeys` | taxonomy.py:158-164 | the keys of the lineage map are exactly the ranks that occur |
| `Lineage.EntryPlacement` | taxonomy.py:160-162 | every lineage taxon is in the list of its own rank, at the position given by the number of earlier taxa of that rank |
| `Lineage.OrderKept` | taxonomy.py:160-162 | taxa of the same rank keep their document order in its list |
| `Lineage.ListedInfosHaveTheirRank` | taxonomy.py:158-162 | every info in a rank's list comes from a lineage taxon of that rank |
| `Lineage.TotalCount` | taxonomy.py:158-164 | the lists together hold exactly as many infos as there are lineage taxa: nothing dropped or merged |
| `Lineage.DocumentFields` | taxonomy.py:151-164 | the record's rank, sci_name and taxon_id are those of the first Taxon of the document, and its lineage is the grouping of that taxon's `LineageEx` children |
| `Lineage.DocumentToInfo` | taxonomy.py:131-165 | the reference definition of `etree_to_dict`; `DocumentFields` states its fields and `Cache.DocumentErrors` its errors |
| `Lineage.EmptyTaxIdIsTypeError` | taxonomy.py:152-179 | a root Taxon whose TaxId element has no text makes `etree_to_dict` raise `TypeError` |
| `Lineage.EtreeToDict` | taxonomy.py:131-165 | the loop over the lineage taxa gives the record of the reference definition `DocumentToInfo` |
| `Cache.SpeciesToDict` | taxonomy.py:183-193 | the reference composition of `species_to_dict`: search with retries, id check, fetch with retries, `etree_to_dict`, the first exception ending it; its lemmas below state its outcomes |
| `Cache.ValueErrorMeansBadData` | taxonomy.py:190-192 | in the model, a `ValueError` from `species_to_dict` never comes from the network: the search answered, and its id list was refused or the fetched record has a malformed TaxId |
| `Cache.DocumentErrors` | taxonomy.py:152-161 | the only `ValueError` of `etree_to_dict` is a malformed TaxId |
| `Cache.SearchDownIsHttpError` | taxonomy.py:190 | when every search attempt meets an HTTP error, `species_to_dict` raises `HTTPError` |
| `Cache.FirstAttemptsDeliver` | taxonomy.py:190-193 | when search and fetch answer at once, the result is the record of the fetched document |
| `Cache.FetchSpecies` | taxonomy.py:183-193 | `species_to_dict` request by request gives the result of the reference composition `SpeciesToDict` |
| `Cache.Resolve` | taxonomy.py:269-270 | the lookup of a directory name: `species_to_dict` of its query name; `HandleTypo` and the batch are stated through it |
| `Cache.NewNames` | taxonomy.py:254-255 | the names to look up are directory names, none already stored, and together with the stored keys they cover every directory name |
| `Cache.Merged` | taxonomy.py:263-271 | the stored data after the batch: every stored entry plus each accepted new name with its record; `MergedContents` states its contents |
| `Cache.Rejected` | taxonomy.py:272-274 | the new names whose lookup raised `ValueError`; `RejectedStep` and `AcceptedOrRejected` state it |
| `Cache.MergedContents` | taxonomy.py:263-271 | every stored entry is kept, also for directories that no longer exist; a new name is added exactly when its lookup succeeds, with its own record; nothing else is added |
| `Cache.MergedStep` | taxonomy.py:271 | storing one successful lookup adds exactly that key |
| `Cache.MergedSkip` | taxonomy.py:272-274 | a failed lookup adds nothing |
| `Cache.RejectedStep` | taxonomy.py:272-274 | a name joins the failed ones exactly when its lookup raised `ValueError` |
| `Cache.RetrieveAll` | taxonomy.py:262-274 | the loop over the new names, in an arbitrary order, saves exactly when no lookup raised anything but `ValueError`; it then holds the merged data and a failed list without repetitions of exactly the names whose lookup raised `ValueError`; otherwise it ends with the exception of one such lookup |
| `Cache.Visit` | taxonomy.py:264-274 | one pass of the loop body: the run goes on exactly when the lookup raised nothing but `ValueError`, and then the data and the failed list are those of the names processed so far plus this one; otherwise the lookup's exception escapes |
| `Cache.GetTaxonData` | taxonomy.py:247-283 | the same for the names not yet stored, and when saved the names added plus the names failed are as many as the new names |
| `Cache.DistinctCount` | taxonomy.py:274 | a list without repetitions is as long as the set of its elements |
| `Cache.MergedCount` | taxonomy.py:279-281 | without an uncaught failure, the names added and the names failed together are as many as the new names |
| `Cache.AcceptedOrRejected` | taxonomy.py:265-274 | without an uncaught failure every new name is either stored or failed, never both |
| `Cache.RerunRetriesFailures` | taxonomy.py:254-255 | a second run over the same directories looks up exactly the names that failed in the first run |
| `Cache.HandleTypo` | taxonomy.py:300-306 | on success the stored data gains or replaces exactly the key of the misspelled name, with the record of the corrected name, and every other key is unchanged; on failure the exception of the lookup is raised and nothing is written |

## Left out

- HTTP transport: `requests.get`, `raise_for_status`, the timeout and the payloads of
  `esearch_req` and `efetch_req` become the attempt outcomes of the `Service`.
- `req.json()['esearchresult']['idlist']`: a delivered search response is the id list itself; a
  response without that field (a `KeyError`) is not modelled.
- XML parsing with defusedxml: the document is a `TaxaSet` value; a lineage taxon's own
  `LineageEx` is ignored, as `etree_to_dict` ignores it.
- JSON load and save, `dict_from_path` and `get_names_from_dataset`: filesystem I/O; the stored
  data and the directory names are values, and "written" means the `Saved` outcome.
- `time.sleep`, `print` and `tqdm`: only the number of sleeps is counted.
- Environment variables, `SLEEP_INTERVAL` and `RETURN_RANKS`: configuration, the last two
  unused by the code.
- TaxonIds.SpeciesToId: `str.isdigit` is modelled on the ASCII digits only; Unicode digits that
  Python also accepts are not.
- Lineage.ParseTaxonElement: `int()` is modelled as an optional sign followed by ASCII digits;
  surrounding whitespace, underscores between digits and Unicode digits, which Python also
  accepts, are refused by the model. An element present without text is modelled as empty
  text: for TaxId this gives the `TypeError` of `int(None)`; for Rank and ScientificName the
  record holds the empty string where Python holds `None`.
- Cache.ValueErrorMeansBadData: a `ValueError` raised while decoding a response body
  (`req.json()` on a body that is not JSON, defusedxml refusing a document) is not modelled,
  since a delivered response already is the id list or the parsed document; in the program such
  an error makes the batch record the name as failed.
- Cache.Service: a query is answered the same way every time it is made; two directory names
  with the same query name (`Foo_sp` and `Foo_adult`) share one lookup result, and the
  order-independence of the batch relies on that.
- Cache.RetrieveAll: the order of the failed list is not stated, since it follows the iteration
  order of a Python set.
- Conversion of the record to JSON (the `defaultdict` becoming a plain mapping) is not modelled.
