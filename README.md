# VuFind core, modelled in Dafny

VuFind is a library discovery portal that runs on top of a Solr index. This project models
six of its pieces and proves properties about them:

- **Solr JSON record collection** (`record_collection.dfy`, module `SolrJson`). A search
  response is merged over a template of defaults. Records are stored in a sparse map from
  result position to record. A cursor implements PHP's iterator protocol relative to the
  window offset the engine reported, and the facets object is built once and then reused.
- **Query groups** (`query_group.dfy`, module `QueryModel`). A boolean operator is checked
  against AND, OR and NOT. NOT is stored as OR with a negation flag. Child queries are only
  ever appended, in order.
- **XSLT importer helpers** (`xslt_import.dfy`, module `XsltImport`):
  - the sort-title article stripper;
  - parsing and lookup of a SolrMarc-style translation map;
  - the choice of full-text parser;
  - the Aperture and Tika command lines.
- **Record driver base and its Missing variant** (`record_drivers.dfy`, module
  `RecordDrivers`):
  - configuration defaulting;
  - raw data and extra details;
  - sort title, translation and the OpenURL switches;
  - saving to favourites, list notes and related-record plugins;
  - the fallback titles of a record that has gone from the index.
- **Alphabetic heading browse** (`alphabrowse.dfy`, module `Alphabrowse`): the request guard,
  the single retry one page back, mapping of the missing-index error, and the next/previous
  page links.
- **Shared PHP string functions** (`php_text.dfy`, module `PhpText`): `trim`, `strtolower`,
  `empty()` on strings, `explode`, `str_replace` and prefix tests, each with its own
  contract. `wrappers.dfy` holds `Option` and `Result`.

How the source's objects map onto Dafny:

- An object whose fields the source updates in place is a Dafny `class`: `RecordCollection`,
  `QueryGroup` and `RecordDriver`.
- A record is a class, because `add` compares records by object identity.
- PHP getters that only return a field (`getQueries`, `isNegated`, `getOperator`,
  `getReducedHandler`, `getRawData`) are reads of that field.
- Code outside the core is a function value passed in as a parameter:
  - the database tables;
  - the related-plugin manager;
  - `Tags::parse`;
  - the translator;
  - the Solr browse call;
  - the driver accessors that SolrDefault supplies (unique ID, breadcrumb, short title and
    title, as the `Schema` datatype).
- Configuration values are passed in as datatypes. `None` means a setting that PHP's `isset`
  does not see.
- The record-driver class hierarchy is one class with a `variant` tag (SolrDefault or
  Missing). Members that only `Missing` defines require that variant.
- `saveToFavorites` and `homeAction` return the list of calls they make on their
  collaborators, in order, together with their result.

Behaviours of the code that are easy to miss, and that the model keeps:

- **Empty AlphaBrowse_Types section.** The code tests `isset(...) && !empty(...)` on a
  configuration object, and PHP never considers an object empty. So a section that is
  present but empty gives no browse types; only a missing section gives the defaults.
- **A falsy `source`.** The browse page makes no call when `source` is absent, and also
  when it is "" or "0", because PHP treats those strings as false.
- **Sort titles are lower-cased.** The code lower-cases the whole trimmed title before it
  looks for an article, and returns it that way. So `SortTitle` is always lower case, with
  at most one article removed.
- **Related-record parameters.** The code splits an entry at every ':' and passes only the
  second segment as the parameters; any further segments are dropped.
- **The note "0".** `getListNotes` drops a note "0", because PHP's `empty("0")` is true.
- **Null before first use.** A query group's negation flag and its list of children start
  out null. `setOperator('AND')` and `setOperator('OR')` leave the flag null, and a group
  built with no children returns null from `getQueries`. The model keeps both as `None`.

## Model

| member | source | states |
|---|---|---|
| SolrJson.MergeTemplate | module/VuFindSearch/src/VuFindSearch/Backend/Solr/Response/Json/RecordCollection.php:56-60 | QTime and start default to 0 and facet_counts to empty; each is used only where the response lacks it. numFound is never defaulted. |
| SolrJson.MergeKeepsGivenValues | module/VuFindSearch/src/VuFindSearch/Backend/Solr/Response/Json/RecordCollection.php:56-60 | The response's own values win over the template. |
| SolrJson.RecordCollection.constructor | module/VuFindSearch/src/VuFindSearch/Backend/Solr/Response/Json/RecordCollection.php:90-96 | After construction: no records, `count()` 0, `key()` equal to the response's start, total equal to numFound, query time defaulted through the template. The collection invariant and contiguity hold. |
| SolrJson.KeyRange | module/VuFindSearch/src/VuFindSearch/Backend/Solr/Response/Json/RecordCollection.php:202-208 | Exactly the positions lo .. hi-1, and how many there are. |
| SolrJson.RecordCollection.Add | module/VuFindSearch/src/VuFindSearch/Backend/Solr/Response/Json/RecordCollection.php:202-208 | A record object not yet stored goes to the cursor, and the cursor moves on by one. The count grows by one when the cursor position was free, which is always so in a contiguous collection. A record object already stored changes nothing. No object is ever stored twice. The populated positions stay exactly offset .. pointer-1. |
| SolrJson.InjectiveStore | module/VuFindSearch/src/VuFindSearch/Backend/Solr/Response/Json/RecordCollection.php:204-206 | Storing an object that is not yet stored keeps positions and objects one-to-one. |
| SolrJson.RecordCollection.First | module/VuFindSearch/src/VuFindSearch/Backend/Solr/Response/Json/RecordCollection.php:168-171 | The record at the window start, or none exactly when that position is empty, whatever else is stored. |
| SolrJson.RecordCollection.Current | module/VuFindSearch/src/VuFindSearch/Backend/Solr/Response/Json/RecordCollection.php:227-230 | Callable only when `valid()` holds; gives a stored record. |
| SolrJson.RecordCollection.Rewind | module/VuFindSearch/src/VuFindSearch/Backend/Solr/Response/Json/RecordCollection.php:237-240 | The cursor is set to the offset. |
| SolrJson.RecordCollection.Next | module/VuFindSearch/src/VuFindSearch/Backend/Solr/Response/Json/RecordCollection.php:247-250 | The cursor moves on by one, whether or not a record is stored there. |
| SolrJson.RecordCollection.GetFacets | module/VuFindSearch/src/VuFindSearch/Backend/Solr/Response/Json/RecordCollection.php:135-141 | The first call builds a fresh Facets object from facet_counts. Every later call returns that same object. |
| SolrJson.RecordCollection.ForeachRecords | module/VuFindSearch/src/VuFindSearch/Backend/Solr/Response/Json/RecordCollection.php:217-250 | A `foreach` (rewind, then valid/current/next) yields the records from the offset up to the first empty position, and ends with `valid()` false. |
| SolrJson.VisitIgnoresEarlier | module/VuFindSearch/src/VuFindSearch/Backend/Solr/Response/Json/RecordCollection.php:217-250 | What iteration yields from a position ignores the positions before it. |
| SolrJson.VisitContiguous | module/VuFindSearch/src/VuFindSearch/Backend/Solr/Response/Json/RecordCollection.php:93-95 | When exactly the positions offset .. offset+n-1 are populated, iteration yields all n records in position order. |
| SolrJson.RecordCollection.GetTotal | module/VuFindSearch/src/VuFindSearch/Backend/Solr/Response/Json/RecordCollection.php:115-118 | The numFound of the response the collection was built from, null when the engine sent none (the template gives it no default). It does not depend on the records held. |
| SolrJson.RecordCollection.GetQueryTime | module/VuFindSearch/src/VuFindSearch/Backend/Solr/Response/Json/RecordCollection.php:125-128 | The response's QTime, or 0 when the response has none. |
| SolrJson.RecordCollection.GetOffset | module/VuFindSearch/src/VuFindSearch/Backend/Solr/Response/Json/RecordCollection.php:158-161 | The response's start, the same window start that `first` and `rewind` use. |
| SolrJson.RecordCollection.Count | module/VuFindSearch/src/VuFindSearch/Backend/Solr/Response/Json/RecordCollection.php:269-272 | The number of populated positions. After construction and any adds it is how far the cursor has moved from the window start. |
| SolrJson.RecordCollection.Key | module/VuFindSearch/src/VuFindSearch/Backend/Solr/Response/Json/RecordCollection.php:257-260 | The cursor position. After construction and any adds it is the position just past the last record. |
| SolrJson.RecordCollection.CursorValid | module/VuFindSearch/src/VuFindSearch/Backend/Solr/Response/Json/RecordCollection.php:217-220 | PHP's iterator `valid()`: a record is stored at the cursor. After construction and any adds the cursor is past the last record, so it is false until `rewind`. |
| QueryModel.OperatorAfter | module/VuFindSearch/src/VuFindSearch/Query/QueryGroup.php:178-189 | Fails exactly for operators other than the three of line 51 (AND, OR and NOT), with that operator in the error. NOT leaves OR and negation true. AND and OR are stored as given and leave the negation flag as it was, null included. The stored operator is never NOT. |
| QueryModel.SetOperatorIdempotent | module/VuFindSearch/src/VuFindSearch/Query/QueryGroup.php:178-189 | Setting an accepted operator twice has the effect of setting it once. |
| QueryModel.QueryGroup.SetOperator | module/VuFindSearch/src/VuFindSearch/Query/QueryGroup.php:178-189 | The new operator and negation flag (read back by `getOperator` and `isNegated`, lines 196-209) are those of OperatorAfter. An invalid operator raises the error and changes nothing. The group invariant is kept. |
| QueryModel.QueryGroup.New | module/VuFindSearch/src/VuFindSearch/Query/QueryGroup.php:90-95 | Fails exactly for an invalid operator. Otherwise it gives a fresh group that keeps the invariant, with the mapped operator, negation true for NOT and null otherwise, the children in order (null when there are none) and the reduced handler. |
| QueryModel.QueryGroup.AddQuery | module/VuFindSearch/src/VuFindSearch/Query/QueryGroup.php:140-143 | Appends one child at the end, turning a null list into a one-element list (`getQueries`, lines 150-153, reads the list). |
| QueryModel.QueryGroup.SetQueries | module/VuFindSearch/src/VuFindSearch/Query/QueryGroup.php:162-167 | Appends every given child, in order, after the existing ones. An empty argument leaves the list as it was, null included. |
| QueryModel.QueryGroup.SetReducedHandler | module/VuFindSearch/src/VuFindSearch/Query/QueryGroup.php:118-121 | Stores the handler that `getReducedHandler` returns. |
| QueryModel.QueryGroup.UnsetReducedHandler | module/VuFindSearch/src/VuFindSearch/Query/QueryGroup.php:128-131 | Resets the handler to null. |
| XsltImport.SortTitle | module/VuFind/src/VuFind/XSLT/Import/VuFind.php:336-350 | With t the trimmed, lower-cased title: a leading "a " is removed when present, else a leading "an ", else a leading "the "; otherwise the result is t. |
| XsltImport.StripLeadingArticle | module/VuFind/src/VuFind/XSLT/Import/VuFind.php:341-348 | Removes the first of "a ", "an ", "the " that leads the text, and only that one; text with none of them is returned as it is. The result is always a suffix of the text. |
| XsltImport.StripArticles | module/VuFind/src/VuFind/XSLT/Import/VuFind.php:336-350 | Lower-cases the trimmed title and runs the article loop on it; the result is SortTitle of the title. |
| XsltImport.StripFirstArticle | module/VuFind/src/VuFind/XSLT/Import/VuFind.php:342-347 | The loop over the articles, with its early exit, removes exactly what StripLeadingArticle removes. |
| XsltImport.SortTitleLower | module/VuFind/src/VuFind/XSLT/Import/VuFind.php:340-340 | A sort title has no upper-case letter left. |
| XsltImport.SortTitleStripsOnce | module/VuFind/src/VuFind/XSLT/Import/VuFind.php:342-347 | Only one article is removed: "the a tale" becomes "a tale". |
| XsltImport.SortTitleNeedsSpace | module/VuFind/src/VuFind/XSLT/Import/VuFind.php:342-347 | An article is removed only when a space follows it: "the" and "Theory" are only lower-cased. |
| XsltImport.SortTitleExamples | module/VuFind/src/VuFind/XSLT/Import/VuFind.php:336-350 | "The Great Gatsby", " A Tale of Two Cities " and "Moby Dick" sort as "great gatsby", "tale of two cities" and "moby dick". |
| XsltImport.ParseLine | module/VuFind/src/VuFind/XSLT/Import/VuFind.php:319-325 | A line defines a key exactly when it contains '='. The key has no '=', and key and value are trimmed. |
| XsltImport.ParseLineSplitsAtFirst | module/VuFind/src/VuFind/XSLT/Import/VuFind.php:320-323 | A defining line is the key's text, the first '=', then the value's text; key and value are those two texts trimmed. |
| XsltImport.BuildMapKeys | module/VuFind/src/VuFind/XSLT/Import/VuFind.php:319-325 | A key is in the map exactly when some line defines it. |
| XsltImport.BuildMapLastWins | module/VuFind/src/VuFind/XSLT/Import/VuFind.php:319-325 | A key's value comes from the last line that defines it. |
| XsltImport.TranslationMapLookup | module/VuFind/src/VuFind/XSLT/Import/VuFind.php:311-327 | The two facts above, stated over the raw lines of the map file. |
| XsltImport.MapString | module/VuFind/src/VuFind/XSLT/Import/VuFind.php:311-327 | The loop builds the translation map. The result is the input's mapped value, or the input itself when no line defines it. |
| XsltImport.GetParser | module/VuFind/src/VuFind/XSLT/Import/VuFind.php:129-150 | An explicit parser setting wins; then Aperture when the webcrawler is set, then Tika when its path is set. "None" is returned exactly when nothing is configured or the setting is "None". |
| XsltImport.GetApertureCommand | module/VuFind/src/VuFind/XSLT/Import/VuFind.php:182-198 | "" exactly when no webcrawler is configured. Otherwise: the webcrawler command with "webcrawler" replaced by the method, then " -o output -x input". |
| XsltImport.GetTikaCommand | module/VuFind/src/VuFind/XSLT/Import/VuFind.php:252-269 | Nothing exactly when Tika.path is not set. Otherwise the command line "java -jar path arg -eUTF8 input", with standard output sent to the output file. |
| PhpText.Trim | module/VuFind/src/VuFind/XSLT/Import/VuFind.php:340-340 | No trimmable character is left at either end, the result is no longer than the input, and an already trimmed string is unchanged. |
| PhpText.TrimCutsEnds | module/VuFind/src/VuFind/XSLT/Import/VuFind.php:340-340 | The trimmed string is a slice of the input, and everything cut off before and after it is a trimmable character. |
| PhpText.ToLower | module/VuFind/src/VuFind/XSLT/Import/VuFind.php:340-340 | Same length, lower-cased character by character, no upper case left. |
| PhpText.SplitFirst | module/VuFind/src/VuFind/XSLT/Import/VuFind.php:320-320 | None exactly when the separator is absent. Otherwise the parts rejoin to the input around the first separator. |
| PhpText.Explode | module/VuFind/src/VuFind/RecordDriver/AbstractBase.php:328-328 | At least one part, and no part holds the separator. There is a single part equal to the input exactly when the separator is absent. Otherwise the first part is the text before the first separator. |
| PhpText.ImplodeExplode | module/VuFind/src/VuFind/RecordDriver/AbstractBase.php:328-328 | Joining the exploded parts with the separator gives the input back. |
| PhpText.StrReplace | module/VuFind/src/VuFind/XSLT/Import/VuFind.php:193-194 | Replacing a string by itself, or a string that does not occur, leaves the subject unchanged. An occurrence at the front is replaced by the replacement. |
| PhpText.StrReplaceOnce | module/VuFind/src/VuFind/XSLT/Import/VuFind.php:193-194 | A single occurrence at position i, with no character before it that could start one and too little after it for another, is replaced and everything else is kept. |
| PhpText.StrReplaceExample | module/VuFind/src/VuFind/XSLT/Import/VuFind.php:193-194 | "bin/webcrawler.sh" becomes "bin/filecrawler.sh" when "webcrawler" is replaced by "filecrawler". |
| RecordDrivers.RecordDriver.constructor | module/VuFind/src/VuFind/RecordDriver/AbstractBase.php:105-109 | The record configuration defaults to the main one. The resource source is "missing" for the Missing variant (Missing.php:51-55) and "VuFind" otherwise. There is no raw data, no extra details and no translator. |
| RecordDrivers.RecordDriver.SetRawData | module/VuFind/src/VuFind/RecordDriver/AbstractBase.php:122-136 | Replaces the raw data that `getRawData` returns. |
| RecordDrivers.RecordDriver.GetSortTitle | module/VuFind/src/VuFind/RecordDriver/AbstractBase.php:169-176 | The breadcrumb's sort title, under the importer's article rule, with no upper case left. |
| RecordDrivers.RecordDriver.SetTranslator | module/VuFind/src/VuFind/RecordDriver/AbstractBase.php:488-492 | Installs the translator. |
| RecordDrivers.RecordDriver.Translate | module/VuFind/src/VuFind/RecordDriver/AbstractBase.php:501-505 | The translator's text, or the message unchanged when there is no translator. |
| RecordDrivers.RecordDriver.OpenUrlActive | module/VuFind/src/VuFind/RecordDriver/AbstractBase.php:352-368 | False without a resolver URL. Otherwise the show_in_<area> switch when it is set. Otherwise true exactly for "results". |
| RecordDrivers.RecordDriver.ReplaceUrlsWithOpenUrl | module/VuFind/src/VuFind/RecordDriver/AbstractBase.php:375-379 | True exactly when replace_other_urls is set and true. |
| RecordDrivers.RecordDriver.SetExtraDetail | module/VuFind/src/VuFind/RecordDriver/AbstractBase.php:399-402 | `getExtraDetail` then gives the stored value for that key, and every other key gives what it gave before. |
| RecordDrivers.RecordDriver.GetExtraDetail | module/VuFind/src/VuFind/RecordDriver/AbstractBase.php:423-426 | The stored value, or null when nothing is stored. |
| RecordDrivers.RecordDriver.SaveToFavorites | module/VuFind/src/VuFind/RecordDriver/AbstractBase.php:226-258 | Fails with LoginRequired exactly when there is no user, before any call. With a user, the calls are in order:<br>1. a new list titled with the translated "My Favorites" when the list parameter is absent, empty or "NEW"; otherwise the given list is loaded and marked last used;<br>2. the resource is found or created by (unique ID, resource source), with the driver passed along;<br>3. the resource is saved into the list, with the trimmed and parsed tags (none by default) and the notes ("" by default). |
| RecordDrivers.RecordDriver.GetListNotes | module/VuFind/src/VuFind/RecordDriver/AbstractBase.php:268-281 | The loop keeps exactly the notes PHP does not consider empty, in table order, from the rows saved for (unique ID, resource source). |
| RecordDrivers.NonEmptyNotes | module/VuFind/src/VuFind/RecordDriver/AbstractBase.php:275-279 | Every kept note is non-empty, and a note is kept exactly when some row holds it and it is non-empty. Order and repeats are fixed by NonEmptyNotesOne and NonEmptyNotesAppend. |
| RecordDrivers.NonEmptyNotesOne | module/VuFind/src/VuFind/RecordDriver/AbstractBase.php:275-279 | One row gives its note exactly when `empty()` does not reject it, and nothing otherwise. |
| RecordDrivers.NonEmptyNotesAppend | module/VuFind/src/VuFind/RecordDriver/AbstractBase.php:274-280 | The notes of two runs of rows are those of the first run followed by those of the second, so the notes keep table order and repeats. |
| RecordDrivers.RecordDriver.GetUniqueId | module/VuFind/src/VuFind/RecordDriver/AbstractBase.php:151 | Abstract in the base class. Each schema computes it from the raw data alone. |
| RecordDrivers.RecordDriver.GetResourceSource | module/VuFind/src/VuFind/RecordDriver/AbstractBase.php:303-306 | The resource source as last set: "VuFind" by default, "missing" for the Missing driver, or what `setResourceSource` stored. |
| RecordDrivers.RecordDriver.StorageKey | module/VuFind/src/VuFind/RecordDriver/AbstractBase.php:272 | The pair (unique ID, resource source) by which `getListNotes`, `saveToFavorites` and the title lookup address the record's rows. |
| RecordDrivers.RelatedType | module/VuFind/src/VuFind/RecordDriver/AbstractBase.php:328-329 | The text before the first ':' of an entry, or the whole entry when it has none. |
| RecordDrivers.RelatedParams | module/VuFind/src/VuFind/RecordDriver/AbstractBase.php:328-330 | Null exactly when the entry has no ':'. Otherwise the text after the first ':' up to the next ':' or the end, which holds no ':'. |
| RecordDrivers.RelatedPlugins | module/VuFind/src/VuFind/RecordDriver/AbstractBase.php:327-340 | Succeeds exactly when the plugin manager has every type. It then returns one plugin per entry, in order, each initialised with its parameters and the driver. Otherwise the error names the first unknown type. |
| RecordDrivers.RecordDriver.RelatedEntries | module/VuFind/src/VuFind/RecordDriver/AbstractBase.php:322-325 | The given list; or, when the argument is null, Record.related from the record configuration, or an empty list when that is not set. |
| RecordDrivers.RecordDriver.GetRelated | module/VuFind/src/VuFind/RecordDriver/AbstractBase.php:320-342 | The loop, with its early throw, computes RelatedPlugins of the resolved entries. |
| RecordDrivers.RecordDriver.SetResourceSource | module/VuFind/src/VuFind/RecordDriver/Missing.php:65-68 | Only the Missing variant offers it. `getResourceSource` then returns the new source. |
| RecordDrivers.RecordDriver.DetermineMissingTitle | module/VuFind/src/VuFind/RecordDriver/Missing.php:75-87 | Looks up the resource by (unique ID, resource source) without creating it. Returns its title when there is one and it is not empty; otherwise the translated "Title not available". |
| RecordDrivers.RecordDriver.GetShortTitle | module/VuFind/src/VuFind/RecordDriver/Missing.php:94-98 | SolrDefault keeps its short title. Missing keeps it unless it is empty, and then falls back to the missing title. |
| RecordDrivers.RecordDriver.GetTitle | module/VuFind/src/VuFind/RecordDriver/Missing.php:105-109 | SolrDefault keeps its title. For Missing the title always equals the short title. |
| Alphabrowse.Truthy | module/VuFind/src/VuFind/Controller/AlphabrowseController.php:89 | PHP truthiness of the `source` parameter: false when it is absent, "" or "0", true otherwise. |
| Alphabrowse.PageSize | module/VuFind/src/VuFind/Controller/AlphabrowseController.php:81-82 | The configured page size, or 20. |
| Alphabrowse.RequestedPage | module/VuFind/src/VuFind/Controller/AlphabrowseController.php:80-80 | The requested page, or 0. |
| Alphabrowse.MapError | module/VuFind/src/VuFind/Controller/AlphabrowseController.php:100-108 | A missing-browse-index error becomes the distinct MissingBrowseIndex error. Any other backend error is passed on unchanged. |
| Alphabrowse.HomeAction | module/VuFind/src/VuFind/Controller/AlphabrowseController.php:53-125 | The browse types are the configured section's entries, or the four defaults. Browsing:<br>- no browse call is made unless `source` is truthy and `from` is given;<br>- there are at most two calls, the first at the requested page and size;<br>- the second happens exactly when the first succeeds with a total of 0, and uses the page before;<br>- an error of the last call becomes the mapped error.<br>Page links, from the last page browsed:<br>- `nextpage` is that page + 1, set exactly when the total exceeds the page size;<br>- `prevpage` is that page − 1, set exactly when offset + startRow exceeds 1. |

## Left out

- SolrJson.RecordCollection.constructor: requires the raw response to carry
  `response.start`. The source reads it unchecked, so without it the offset would be PHP's
  null, and null keys and null increments are not modelled.
- `getRawResponse`, `getRecords`, `setSourceIdentifier` and `getSourceIdentifier`
  (RecordCollection.php): plain accessors of state the model does not carry. The source
  identifier is not modelled.
- The operator of a QueryGroup is a string. A non-string argument, which PHP's loose
  `in_array` could accept, is not modelled. Before the first `setOperator`, the operator is
  "", standing for PHP's null; the constructor always replaces it or throws, so it is never
  seen.
- `getComments`, `getTags`, `addTags` and `getContainingLists` (AbstractBase.php): plain
  pass-throughs to database tables that are not part of this model, beyond the storage key
  (`StorageKey`).
- `tryMethod` (AbstractBase.php): PHP reflection over method names.
- `getCitationFormats` and `supportsAjaxStatus`: constants. `setServiceLocator`,
  `getServiceLocator` and `getDbTable`: framework wiring that the function-valued parameters
  replace.
- The value `setTranslator` returns (the driver itself, for chaining) is not modelled.
- RecordDrivers.RecordDriver.SaveToFavorites: collaborators cannot fail in the model. A
  failure partway through is not modelled, and neither is the source's lack of rollback.
  The list and resource objects are represented by their identifying values.
- Configuration values are typed (booleans for the OpenURL switches, integers for the page
  size). The ini reader's strings and PHP's loose comparisons on them are not modelled, and
  neither is `intval` on the page parameter.
- `harvestTextFile`, `harvestWithParser`, `harvestWithAperture`, `harvestWithTika`,
  `getFirstIndexed`, `getLastIndexed`, `getChangeTracker`, `xmlAsText`,
  `removeTagAndReturnXMLasText` and `explode` (VuFind.php): file, network, process, database,
  date and XML handling. `mapString` takes the lines of the map file as input; locating and
  reading the file is not modelled.
- Locale: `strtolower` is modelled for ASCII only.
- XsltImport.GetApertureCommand: the default value "webcrawler" of the `$method` argument is
  not modelled; a caller passes it explicitly.
- Alphabrowse.HomeAction: the AlphaBrowse_Types section is a list of (key, label) pairs, where
  PHP copies it into a keyed array. A section read from an ini file never repeats a key, so
  the list and the array agree; for a list that repeats a key, the model keeps both entries
  where PHP would keep only the last label at the first position.
- AlphabrowseController: rendering the view model and reading the configuration are not
  modelled. The view is a value built field by field.
- UtilController.php and the Zend console banner interface: console plumbing and a bare
  interface, not part of this model.
