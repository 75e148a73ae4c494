/** The persisted configuration of the "Play Composition(s)" build step
    (`TestCompositionRunner`): its fields, its setters, the invariant that ties the three
    delete-old-results fields together, and the one-time migration of configurations saved
    by older versions of the plug-in, which named the server by URL instead of by ID. */
module TestCompositionRunner {
  import opened Wrappers
  import opened JavaStrings
  import opened CloudTestServers

  /** A pass/fail bound on one transaction's metric (`TransactionThreshold`). The class is not
      part of this model; only its identity matters here, and its rendering as a command-line
      value is a parameter of the play step. */
  datatype Threshold = Threshold(transactionName: string, thresholdName: string, thresholdValue: string)

  /** The optional "delete old results" block of the form; present means enabled. */
  datatype DeleteOldResultsSettings = DeleteOldResultsSettings(maxDaysOfResults: int32)

  /** The fields of a `TestCompositionRunner`. `serverId` and `url` live in the parent class
      (`AbstractSCommandBuilder`, not part of this model); a `None` is a `null` field. */
  datatype Runner = Runner(
    serverId: Option<string>,
    url: Option<string>,
    composition: string,
    deleteOldResults: bool,
    maxDaysOfResults: int32,
    additionalOptions: Option<string>,
    thresholds: Option<seq<Threshold>>,
    deleteOldResultsSettings: Option<DeleteOldResultsSettings>,
    generatePlotCSV: bool)

  /** The data-bound constructor: every field not passed in keeps its Java default (`null`,
      `false` or `0`). */
  function NewRunner(serverId: Option<string>, composition: string): (r: Runner)
    ensures r.serverId == serverId && r.composition == composition
    ensures r.url.None? && r.additionalOptions.None? && r.thresholds.None?
    ensures !r.deleteOldResults && r.maxDaysOfResults == 0 && r.deleteOldResultsSettings.None?
    ensures !r.generatePlotCSV
  {
    Runner(serverId, None, composition, false, 0, None, None, None, false)
  }

  /** The two legacy delete fields agree with the settings block: cleanup is on exactly when
      the block is present, and the age is the block's (or 0 without one). */
  predicate DeleteSettingsConsistent(r: Runner)
  {
    && r.deleteOldResults == r.deleteOldResultsSettings.Some?
    && r.maxDaysOfResults == (if r.deleteOldResultsSettings.Some? then r.deleteOldResultsSettings.value.maxDaysOfResults else 0)
  }

  /** `a` and `b` agree on every field outside the delete-old-results group. */
  predicate SameOutsideDeleteSettings(a: Runner, b: Runner)
  {
    && a.serverId == b.serverId
    && a.url == b.url
    && a.composition == b.composition
    && a.additionalOptions == b.additionalOptions
    && a.thresholds == b.thresholds
    && a.generatePlotCSV == b.generatePlotCSV
  }

  /** `setDeleteOldResultsSettings`: stores the block and derives the two legacy fields from
      it, touching nothing else. */
  function SetDeleteOldResultsSettings(r: Runner, s: Option<DeleteOldResultsSettings>): (r': Runner)
    ensures r'.deleteOldResultsSettings == s
    ensures r'.deleteOldResults <==> s.Some?
    ensures r'.maxDaysOfResults == (if s.None? then 0 else s.value.maxDaysOfResults)
    ensures DeleteSettingsConsistent(r')
    ensures SameOutsideDeleteSettings(r, r')
  {
    r.(deleteOldResultsSettings := s,
       deleteOldResults := s.Some?,
       maxDaysOfResults := if s.None? then 0 else s.value.maxDaysOfResults)
  }

  /** The `@DataBoundSetter`s: each stores its value and changes no other field. */
  function SetAdditionalOptions(r: Runner, options: Option<string>): (r': Runner)
    ensures r'.additionalOptions == options
    ensures r'.(additionalOptions := r.additionalOptions) == r
  {
    r.(additionalOptions := options)
  }

  function SetThresholds(r: Runner, thresholds: Option<seq<Threshold>>): (r': Runner)
    ensures r'.thresholds == thresholds
    ensures r'.(thresholds := r.thresholds) == r
  {
    r.(thresholds := thresholds)
  }

  function SetGeneratePlotCSV(r: Runner, generate: bool): (r': Runner)
    ensures r'.generatePlotCSV == generate
    ensures r'.(generatePlotCSV := r.generatePlotCSV) == r
  {
    r.(generatePlotCSV := generate)
  }

  function SetUrl(r: Runner, url: Option<string>): (r': Runner)
    ensures r'.url == url
    ensures r'.(url := r.url) == r
  {
    r.(url := url)
  }

  /** Why loading a configuration failed. */
  datatype LoadError =
    /** The URL of a legacy configuration names no configured server: `s.getId()` is called
        on the `null` that `getByURL` returns. */
    | NoServerForUrl(url: Option<string>)

  /** `readResolve`: a runner that has a server ID is kept as it is; a legacy one (no ID) is
      re-created with the ID of the server registered under its URL, carrying over its
      composition, options, thresholds, CSV flag, URL, and its delete settings when cleanup
      was on. */
  function ReadResolve(r: Runner, reg: Registry): (res: Result<Runner, LoadError>)
    ensures r.serverId.Some? ==> res == Ok(r)
    ensures r.serverId.None? ==> (res.Ok? <==> r.url in reg.byUrl)
    ensures res.Err? ==> res.error == NoServerForUrl(r.url)
    ensures r.serverId.None? && res.Ok? ==>
      && res.value.serverId == Some(reg.byUrl[r.url].id)
      && res.value.composition == r.composition
      && res.value.additionalOptions == r.additionalOptions
      && res.value.thresholds == r.thresholds
      && res.value.generatePlotCSV == r.generatePlotCSV
      && res.value.url == r.url
      && res.value.deleteOldResults == r.deleteOldResults
      && res.value.deleteOldResultsSettings
         == (if r.deleteOldResults then Some(DeleteOldResultsSettings(r.maxDaysOfResults)) else None)
      && (r.deleteOldResults ==> res.value.maxDaysOfResults == r.maxDaysOfResults)
      && DeleteSettingsConsistent(res.value)
  {
    if r.serverId.Some? then Ok(r)
    else
      match GetByUrl(reg, r.url)
      case None => Err(NoServerForUrl(r.url))
      case Some(s) =>
        var created := NewRunner(Some(s.id), r.composition);
        var withDelete :=
          if r.deleteOldResults
          then SetDeleteOldResultsSettings(created, Some(DeleteOldResultsSettings(r.maxDaysOfResults)))
          else created;
        var migrated :=
          SetGeneratePlotCSV(
            SetThresholds(SetAdditionalOptions(withDelete, r.additionalOptions), r.thresholds),
            r.generatePlotCSV);
        Ok(if r.url.Some? then SetUrl(migrated, r.url) else migrated)
  }

  /** Loading is migrated at most once: a resolved runner resolves to itself. */
  lemma {:induction false} ReadResolveIdempotent(r: Runner, reg: Registry)
    requires ReadResolve(r, reg).Ok?
    ensures ReadResolve(ReadResolve(r, reg).value, reg) == ReadResolve(r, reg)
  {
  }

  /** A runner built the way the form binds it (the data-bound constructor, then the
      setters) holds every value it was given and keeps the delete fields consistent. */
  lemma {:induction false} ConfiguredRunnerIsConsistent(
    serverId: Option<string>, composition: string, settings: Option<DeleteOldResultsSettings>,
    options: Option<string>, thresholds: Option<seq<Threshold>>, generate: bool)
    ensures var r := SetGeneratePlotCSV(SetThresholds(SetAdditionalOptions(
              SetDeleteOldResultsSettings(NewRunner(serverId, composition), settings),
              options), thresholds), generate);
            && DeleteSettingsConsistent(r)
            && r.deleteOldResultsSettings == settings
            && r.serverId == serverId && r.composition == composition
            && r.additionalOptions == options && r.thresholds == thresholds
            && r.generatePlotCSV == generate
  {
  }
}
