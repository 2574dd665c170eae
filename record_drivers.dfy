/**
 * The record driver base (VuFind\RecordDriver\AbstractBase) and its Missing variant
 * (VuFind\RecordDriver\Missing), as one class tagged with its variant.
 *
 * The accessors a concrete driver supplies (unique ID, breadcrumb, and the short and full
 * titles that SolrDefault derives from the raw fields) are a `Schema` of functions over the
 * raw data. The database tables, the related-record plugin manager, tag parsing and the
 * translator are function values handed in; every storage access is keyed by the pair
 * (unique ID, resource source), and the contracts say which pair is passed.
 */
module RecordDrivers {
  import opened Wrappers
  import opened PhpText
  import XsltImport

  /** Raw record data, as the search backend returned it. */
  type RawData = map<string, string>

  /** The accessors a concrete driver supplies for its raw data. */
  datatype Schema = Schema(
    uniqueId: RawData -> string,
    breadcrumb: RawData -> string,
    shortTitle: RawData -> string,
    title: RawData -> string)

  /** SolrDefault is the generic driver; Missing stands in for a record gone from the index. */
  datatype Variant = SolrDefault | Missing

  /** The [OpenURL] section of the main configuration: the resolver URL, and the boolean
      switches it holds (show_in_<area>, replace_other_urls). */
  datatype OpenUrlSettings = OpenUrlSettings(url: Option<string>, switches: map<string, bool>)

  /** The parts of a configuration the driver reads: the [OpenURL] section, and
      Record.related, the default related-record types. None is a setting that is not set. */
  datatype Config = Config(openUrl: Option<OpenUrlSettings>, relatedTypes: Option<seq<string>>)

  /** A value stored with `setExtraDetail`; Null is PHP's null. */
  datatype Mixed = Null | Str(s: string) | Num(n: int) | Flag(b: bool) | List(items: seq<Mixed>)

  /** A logged-in user, by ID. */
  datatype User = User(id: int)

  /** The list a saved record goes into: a new list of the user, or an existing one by ID. */
  datatype ListRef = NewListOf(owner: User) | ExistingList(listId: string)

  /** The calls `saveToFavorites` makes on its storage collaborators, in order.
      `FindResource` carries the driver itself, from which the table creates a missing
      resource. */
  datatype StorageCall =
    | GetNewList(user: User)
    | SetListTitle(title: string)
    | SaveList(user: User)
    | GetExistingList(listId: string)
    | RememberLastUsed(listId: string)
    | FindResource(id: string, source: string, create: bool, driver: RecordDriver)
    | SaveResource(user: User, resource: (string, string), list: ListRef, tags: seq<string>, notes: string)

  /** The optional keys of `saveToFavorites`' parameter array. */
  datatype FavoriteParams = FavoriteParams(list: Option<string>, mytags: Option<string>, notes: Option<string>)

  /** A row of the user-resource table as `getSavedData` returns it. */
  datatype SavedRow = SavedRow(notes: Option<string>)

  /** A resource row as `findResource` returns it. */
  datatype ResourceRow = ResourceRow(title: Option<string>)

  /** The exceptions these operations throw. */
  datatype DriverError =
    | LoginRequired
    | RelatedModuleMissing(relatedType: string)

  /** The list title a new favourites list gets, before translation. */
  const FavoritesTitle := "My Favorites"
  /** The title a missing record shows when nothing better is known, before translation. */
  const MissingTitle := "Title not available"

  /** `saveToFavorites` creates a new list when `list` is absent, empty or "NEW". */
  predicate WantsNewList(params: FavoriteParams) {
    var listId := params.list.GetOr("");
    IsEmpty(listId) || listId == "NEW"
  }

  /** The related-plugin type named by an entry of `getRelated`'s list: the text before
      the first ':'. */
  function RelatedType(entry: string): (t: string)
    ensures ':' !in t
    ensures ':' !in entry ==> t == entry
    ensures ':' in entry ==> |t| < |entry| && entry[..|t|] == t && entry[|t|] == ':'
  {
    Explode(entry, ':')[0]
  }

  /** The parameter string of an entry: the second ':'-separated segment, or null. */
  function RelatedParams(entry: string): (p: Option<string>)
    ensures p.None? <==> ':' !in entry
    ensures p.Some? ==> ':' !in p.value
    ensures p.Some? ==>
              var rest := entry[|RelatedType(entry)| + 1..];
              HasPrefix(rest, p.value) && (|p.value| == |rest| || rest[|p.value|] == ':')
  {
    var parts := Explode(entry, ':');
    if |parts| > 1 then Some(parts[1]) else None
  }

  /** A related-record plugin after `init($params, $driver)`. */
  datatype RelatedPlugin = RelatedPlugin(pluginType: string, params: Option<string>, driver: RecordDriver)

  /** What `getRelated` returns for a list of entries: one initialised plugin per entry in
      the same order, or the error for the first entry whose type the plugin manager lacks. */
  function RelatedPlugins(entries: seq<string>, has: string -> bool, driver: RecordDriver): (r: Result<seq<RelatedPlugin>, DriverError>)
    ensures r.Success? <==> forall i :: 0 <= i < |entries| ==> has(RelatedType(entries[i]))
    ensures r.Success? ==> |r.value| == |entries|
    ensures r.Success? ==> forall i :: 0 <= i < |entries| ==>
              r.value[i] == RelatedPlugin(RelatedType(entries[i]), RelatedParams(entries[i]), driver)
    ensures r.Failure? ==> FirstMissing(entries, has, r.error)
  {
    if entries == [] then Success([])
    else
      var t := RelatedType(entries[0]);
      if !has(t) then Failure(RelatedModuleMissing(t))
      else
        match RelatedPlugins(entries[1..], has, driver)
        case Failure(e) =>
          MissingShift(entries, has, e);
          Failure(e)
        case Success(rest) =>
          assert forall j :: 0 < j < |entries| ==> entries[j] == entries[1..][j - 1];
          Success([RelatedPlugin(t, RelatedParams(entries[0]), driver)] + rest)
  }

  /** `e` is the error for the first entry of `entries` whose type the plugin manager lacks. */
  ghost predicate FirstMissing(entries: seq<string>, has: string -> bool, e: DriverError) {
    exists i :: 0 <= i < |entries| && !has(RelatedType(entries[i])) &&
                e == RelatedModuleMissing(RelatedType(entries[i])) &&
                (forall j :: 0 <= j < i ==> has(RelatedType(entries[j])))
  }

  lemma MissingShift(entries: seq<string>, has: string -> bool, e: DriverError)
    requires entries != [] && has(RelatedType(entries[0]))
    requires FirstMissing(entries[1..], has, e)
    ensures FirstMissing(entries, has, e)
  {
    var i :| 0 <= i < |entries[1..]| && !has(RelatedType(entries[1..][i])) &&
             e == RelatedModuleMissing(RelatedType(entries[1..][i])) &&
             (forall j :: 0 <= j < i ==> has(RelatedType(entries[1..][j])));
    assert entries[i + 1] == entries[1..][i];
    assert forall j :: 0 < j <= i ==> entries[j] == entries[1..][j - 1];
  }

  /** A run of plugins followed by the outcome for the remaining entries. */
  function PrependPlugins(done: seq<RelatedPlugin>, r: Result<seq<RelatedPlugin>, DriverError>): Result<seq<RelatedPlugin>, DriverError> {
    match r
    case Failure(e) => Failure(e)
    case Success(rest) => Success(done + rest)
  }

  lemma PrependNothing(r: Result<seq<RelatedPlugin>, DriverError>)
    ensures PrependPlugins([], r) == r
  {
    if r.Success? {
      assert [] + r.value == r.value;
    }
  }

  lemma PrependTwice(a: seq<RelatedPlugin>, b: seq<RelatedPlugin>, r: Result<seq<RelatedPlugin>, DriverError>)
    ensures PrependPlugins(a, PrependPlugins(b, r)) == PrependPlugins(a + b, r)
  {
    if r.Success? {
      assert a + (b + r.value) == (a + b) + r.value;
    }
  }

  /** One step of `RelatedPlugins`: the first entry fails or is prepended to the rest. */
  lemma RelatedUnfold(entries: seq<string>, has: string -> bool, driver: RecordDriver)
    requires entries != []
    ensures !has(RelatedType(entries[0])) ==>
              RelatedPlugins(entries, has, driver) == Failure(RelatedModuleMissing(RelatedType(entries[0])))
    ensures has(RelatedType(entries[0])) ==>
              RelatedPlugins(entries, has, driver) ==
              PrependPlugins([RelatedPlugin(RelatedType(entries[0]), RelatedParams(entries[0]), driver)],
                             RelatedPlugins(entries[1..], has, driver))
  {
  }

  /** The notes of saved rows that PHP's `empty()` does not reject, in row order. */
  function NonEmptyNotes(rows: seq<SavedRow>): (notes: seq<string>)
    ensures |notes| <= |rows|
    ensures forall i :: 0 <= i < |notes| ==> !IsEmpty(notes[i])
    ensures forall n :: n in notes <==> SavedRow(Some(n)) in rows && !IsEmpty(n)
  {
    if rows == [] then []
    else
      var rest := NonEmptyNotes(rows[..|rows| - 1]);
      var last := rows[|rows| - 1];
      assert rows == rows[..|rows| - 1] + [last];
      if !IsEmptyOrNull(last.notes) then rest + [last.notes.value] else rest
  }

  /** A single row contributes its note exactly when PHP's `empty()` does not reject it. */
  lemma NonEmptyNotesOne(r: SavedRow)
    ensures NonEmptyNotes([r]) == if IsEmptyOrNull(r.notes) then [] else [r.notes.value]
  {
    assert [r][..0] == [];
  }

  /** The notes of two runs of rows are the notes of the first followed by those of the
      second: the table order and the repeats are kept. */
  lemma {:induction false} NonEmptyNotesAppend(a: seq<SavedRow>, b: seq<SavedRow>)
    ensures NonEmptyNotes(a + b) == NonEmptyNotes(a) + NonEmptyNotes(b)
    decreases |b|
  {
    if b == [] {
      assert a + b == a;
    } else {
      NonEmptyNotesAppend(a, b[..|b| - 1]);
      assert (a + b)[..|a + b| - 1] == a + b[..|b| - 1];
    }
  }

  class RecordDriver {
    const variant: Variant
    const schema: Schema
    /** The namespace of this record's rows in the database. */
    var resourceSource: string
    /** Supplemental information stored with the record. */
    var extraDetails: map<string, Mixed>
    const mainConfig: Option<Config>
    const recordConfig: Option<Config>
    /** The raw record data. */
    var fields: RawData
    var translator: Option<string -> string>

    /** `__construct($mainConfig, $recordConfig)`. The resource source starts as the field's
        default "VuFind"; the Missing constructor sets "missing" before calling the parent
        constructor, which does not touch it. The record configuration defaults to the main
        one when omitted. */
    constructor (variant: Variant, schema: Schema, mainConfig: Option<Config>, recordConfig: Option<Config>)
      ensures this.variant == variant && this.schema == schema
      ensures resourceSource == (if variant == Missing then "missing" else "VuFind")
      ensures this.mainConfig == mainConfig
      ensures this.recordConfig == (if recordConfig.None? then mainConfig else recordConfig)
      ensures extraDetails == map[] && fields == map[] && translator == None
    {
      this.variant := variant;
      this.schema := schema;
      resourceSource := "VuFind";
      extraDetails := map[];
      fields := map[];
      translator := None;
      if variant == Missing {
        resourceSource := "missing";
      }
      this.mainConfig := mainConfig;
      this.recordConfig := if recordConfig.None? then mainConfig else recordConfig;
    }

    /** `setRawData`: replaces the raw data. */
    method SetRawData(data: RawData)
      modifies this`fields
      ensures fields == data
    {
      fields := data;
    }

    /** `getUniqueID`: abstract in the base class; each schema computes it from the raw
        data alone. */
    function GetUniqueId(): (id: string)
      reads this
      ensures id == schema.uniqueId(fields)
    {
      schema.uniqueId(fields)
    }

    function GetBreadcrumb(): string
      reads this
    {
      schema.breadcrumb(fields)
    }

    /** The key every storage lookup of this record uses. */
    function StorageKey(): (key: (string, string))
      reads this
      ensures key == (GetUniqueId(), GetResourceSource())
    {
      (GetUniqueId(), resourceSource)
    }

    /** `getSortTitle`: the breadcrumb with the article-stripping rule of the importer. */
    function GetSortTitle(): (r: string)
      reads this
      ensures r == XsltImport.SortTitle(GetBreadcrumb())
      ensures forall i :: 0 <= i < |r| ==> !IsUpper(r[i])
    {
      XsltImport.SortTitleLower(GetBreadcrumb());
      XsltImport.SortTitle(GetBreadcrumb())
    }

    /** `setTranslator`. */
    method SetTranslator(t: string -> string)
      modifies this`translator
      ensures translator == Some(t)
    {
      translator := Some(t);
    }

    /** `translate`: the translator's text, or the message itself when there is none. */
    function Translate(msg: string): (r: string)
      reads this
      ensures translator.None? ==> r == msg
      ensures translator.Some? ==> r == translator.value(msg)
    {
      match translator
      case None => msg
      case Some(t) => t(msg)
    }

    /** `openURLActive($area)`: false without a resolver URL; otherwise the configured
        show_in_<area> switch; otherwise true for "results" only. */
    function OpenUrlActive(area: string): (r: bool)
      ensures (mainConfig.None? || mainConfig.value.openUrl.None? || mainConfig.value.openUrl.value.url.None?) ==> !r
      ensures mainConfig.Some? && mainConfig.value.openUrl.Some? && mainConfig.value.openUrl.value.url.Some? ==>
                var switches := mainConfig.value.openUrl.value.switches;
                r == if "show_in_" + area in switches then switches["show_in_" + area] else area == "results"
    {
      if mainConfig.None? || mainConfig.value.openUrl.None? || mainConfig.value.openUrl.value.url.None? then
        false
      else
        var switches := mainConfig.value.openUrl.value.switches;
        var key := "show_in_" + area;
        if key in switches then switches[key] else area == "results"
    }

    /** `replaceURLsWithOpenURL`: the replace_other_urls switch, false when not set. */
    function ReplaceUrlsWithOpenUrl(): (r: bool)
      ensures r <==> mainConfig.Some? && mainConfig.value.openUrl.Some? &&
                     "replace_other_urls" in mainConfig.value.openUrl.value.switches &&
                     mainConfig.value.openUrl.value.switches["replace_other_urls"]
    {
      match mainConfig
      case None => false
      case Some(c) =>
        match c.openUrl
        case None => false
        case Some(o) => if "replace_other_urls" in o.switches then o.switches["replace_other_urls"] else false
    }

    /** `setExtraDetail($key, $val)`: afterwards `getExtraDetail($key)` gives `$val`, and
        every other key gives what it gave before. */
    method SetExtraDetail(key: string, val: Mixed)
      modifies this`extraDetails
      ensures extraDetails == old(extraDetails)[key := val]
      ensures GetExtraDetail(key) == val
      ensures forall k :: k != key ==> GetExtraDetail(k) == old(GetExtraDetail(k))
    {
      extraDetails := extraDetails[key := val];
    }

    /** `getExtraDetail($key)`: the stored value, or null when nothing was stored. */
    function GetExtraDetail(key: string): (r: Mixed)
      reads this
      ensures key !in extraDetails ==> r == Null
      ensures key in extraDetails ==> r == extraDetails[key]
    {
      if key in extraDetails then extraDetails[key] else Null
    }

    /** `getResourceSource`: the namespace of this record's rows, as last set. */
    function GetResourceSource(): (source: string)
      reads this
      ensures source == resourceSource
    {
      resourceSource
    }

    /** `Missing::setResourceSource`: only the Missing driver offers it. */
    method SetResourceSource(source: string)
      requires variant == Missing
      modifies this`resourceSource
      ensures GetResourceSource() == source
    {
      resourceSource := source;
    }

    /** `saveToFavorites($params, $user)`, as the calls it makes on its collaborators. Without
        a user it throws LoginRequired before any call. Otherwise it creates a list titled
        with the translated "My Favorites" (new list wanted) or loads the given list and
        touches it; then it finds or creates the resource by this record's storage key, and
        saves it into the list with the parsed tags (none by default) and the notes ("" by
        default). A failing collaborator is not modelled, and nothing is rolled back. */
    method SaveToFavorites(params: FavoriteParams, user: Option<User>, parseTags: string -> seq<string>)
      returns (r: Result<seq<StorageCall>, DriverError>)
      ensures r.Failure? <==> user.None?
      ensures r.Failure? ==> r.error == LoginRequired
      ensures r.Success? && WantsNewList(params) ==>
                |r.value| == 5 &&
                r.value[..3] == [GetNewList(user.value), SetListTitle(Translate(FavoritesTitle)), SaveList(user.value)]
      ensures r.Success? && !WantsNewList(params) ==>
                |r.value| == 4 &&
                r.value[..2] == [GetExistingList(params.list.value), RememberLastUsed(params.list.value)]
      ensures r.Success? ==>
                var n := |r.value|;
                n >= 2 && r.value[n - 2] == FindResource(GetUniqueId(), resourceSource, true, this) &&
                r.value[n - 1] == SaveResource(
                  user.value, StorageKey(),
                  if WantsNewList(params) then NewListOf(user.value) else ExistingList(params.list.value),
                  if params.mytags.Some? then parseTags(Trim(params.mytags.value)) else [],
                  params.notes.GetOr(""))
    {
      if user.None? {
        return Failure(LoginRequired);
      }
      var u := user.value;
      var listId := params.list.GetOr("");
      var calls: seq<StorageCall>;
      var list: ListRef;
      if WantsNewList(params) {
        calls := [GetNewList(u), SetListTitle(Translate(FavoritesTitle)), SaveList(u)];
        list := NewListOf(u);
      } else {
        assert params.list.Some?;
        calls := [GetExistingList(listId), RememberLastUsed(listId)];
        list := ExistingList(listId);
      }
      var listCalls := calls;
      calls := calls + [FindResource(GetUniqueId(), resourceSource, true, this)];
      var resource := (GetUniqueId(), resourceSource);
      var tags := if params.mytags.Some? then parseTags(Trim(params.mytags.value)) else [];
      var notes := if params.notes.Some? then params.notes.value else "";
      calls := calls + [SaveResource(u, resource, list, tags, notes)];
      assert calls[..|listCalls|] == listCalls;
      return Success(calls);
    }

    /** `getListNotes($listId, $userId)`: the non-empty notes of the rows the user-resource
        table returns for this record's storage key, in the table's order. */
    method GetListNotes(listId: Option<int>, userId: Option<int>,
                        getSavedData: (string, string, Option<int>, Option<int>) -> seq<SavedRow>)
      returns (notes: seq<string>)
      ensures notes == NonEmptyNotes(getSavedData(GetUniqueId(), resourceSource, listId, userId))
    {
      var data := getSavedData(GetUniqueId(), resourceSource, listId, userId);
      notes := [];
      for i := 0 to |data|
        invariant notes == NonEmptyNotes(data[..i])
      {
        if !IsEmptyOrNull(data[i].notes) {
          notes := notes + [data[i].notes.value];
        }
        assert data[..i + 1][..i] == data[..i];
      }
      assert data[..|data|] == data;
    }

    /** The entries `getRelated` works through: the given list, or Record.related of the
        record configuration when the argument is null (an empty list when that is unset). */
    function RelatedEntries(types: Option<seq<string>>): (entries: seq<string>)
      ensures types.Some? ==> entries == types.value
      ensures types.None? && (recordConfig.None? || recordConfig.value.relatedTypes.None?) ==> entries == []
      ensures types.None? && recordConfig.Some? && recordConfig.value.relatedTypes.Some? ==>
                entries == recordConfig.value.relatedTypes.value
    {
      match types
      case Some(ts) => ts
      case None =>
        if recordConfig.Some? && recordConfig.value.relatedTypes.Some? then recordConfig.value.relatedTypes.value
        else []
    }

    /** `getRelated($types)`: for each entry "type[:params]" in order, asks the plugin manager
        for the type, initialises the plugin with the params and this driver, and collects it;
        throws for the first type the manager does not have. */
    method GetRelated(types: Option<seq<string>>, has: string -> bool)
      returns (r: Result<seq<RelatedPlugin>, DriverError>)
      ensures r == RelatedPlugins(RelatedEntries(types), has, this)
    {
      var entries := RelatedEntries(types);
      var plugins: seq<RelatedPlugin> := [];
      assert entries[0..] == entries;
      PrependNothing(RelatedPlugins(entries, has, this));
      for i := 0 to |entries|
        invariant RelatedPlugins(entries, has, this) == PrependPlugins(plugins, RelatedPlugins(entries[i..], has, this))
      {
        var parts := Explode(entries[i], ':');
        var pluginType := parts[0];
        var pluginParams := if |parts| > 1 then Some(parts[1]) else None;
        RelatedUnfold(entries[i..], has, this);
        assert entries[i..][1..] == entries[i + 1..];
        if !has(pluginType) {
          return Failure(RelatedModuleMissing(pluginType));
        }
        var plugin := RelatedPlugin(pluginType, pluginParams, this);
        PrependTwice(plugins, [plugin], RelatedPlugins(entries[i + 1..], has, this));
        plugins := plugins + [plugin];
      }
      assert plugins + [] == plugins;
      return Success(plugins);
    }

    /** `Missing::determineMissingTitle`: the title stored with the resource found (without
        creating it) by (unique ID, resource source), when there is such a resource and its
        title is not empty; the translated "Title not available" otherwise. */
    function DetermineMissingTitle(findResource: (string, string, bool) -> Option<ResourceRow>): (r: string)
      reads this
      requires variant == Missing
      ensures var found := findResource(GetUniqueId(), GetResourceSource(), false);
              if found.Some? && !IsEmptyOrNull(found.value.title) then r == found.value.title.value
              else r == Translate(MissingTitle)
    {
      var found := findResource(GetUniqueId(), GetResourceSource(), false);
      if found.Some? && !IsEmptyOrNull(found.value.title) then found.value.title.value
      else Translate(MissingTitle)
    }

    /** `getShortTitle`: SolrDefault's short title; the Missing driver falls back to the
        missing title when that is empty. */
    function GetShortTitle(findResource: (string, string, bool) -> Option<ResourceRow>): (r: string)
      reads this
      ensures variant == SolrDefault ==> r == schema.shortTitle(fields)
      ensures variant == Missing && !IsEmpty(schema.shortTitle(fields)) ==> r == schema.shortTitle(fields)
      ensures variant == Missing && IsEmpty(schema.shortTitle(fields)) ==> r == DetermineMissingTitle(findResource)
    {
      var title := schema.shortTitle(fields);
      if variant == Missing && IsEmpty(title) then DetermineMissingTitle(findResource) else title
    }

    /** `getTitle`: SolrDefault's title; the Missing driver uses the parent's short title with
        the same fallback, so its title is always its short title. */
    function GetTitle(findResource: (string, string, bool) -> Option<ResourceRow>): (r: string)
      reads this
      ensures variant == SolrDefault ==> r == schema.title(fields)
      ensures variant == Missing ==> r == GetShortTitle(findResource)
    {
      if variant == Missing then
        var title := schema.shortTitle(fields);
        if IsEmpty(title) then DetermineMissingTitle(findResource) else title
      else
        schema.title(fields)
    }
  }

  /** A client of the specifications above: a Missing record whose short title is empty and
      whose resource has no stored title shows the untranslated placeholder. */
  method MissingRecordExample(schema: Schema, raw: RawData)
    requires schema.shortTitle(raw) == ""
  {
    var d := new RecordDriver(Missing, schema, None, None);
    d.SetRawData(raw);
    assert d.GetResourceSource() == "missing";
    var none := (id: string, source: string, create: bool) => None;
    assert d.GetTitle(none) == MissingTitle;
    d.SetResourceSource("Summon");
    assert d.StorageKey() == (schema.uniqueId(raw), "Summon");
  }
}
