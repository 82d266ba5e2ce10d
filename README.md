# Merlin data exchange, modelled in Dafny

This project models the core of the Merlin-to-HEC data exchange. The exchange engine reads XML
data-exchange configurations. It caches the Merlin templates, quality versions and per-template
measures. Then, for every data-exchange set, it reads each measure's time series from the Merlin web
service and writes it to a HEC-DSS file. Throughout, it reports progress to a listener, tracks a
completion percentage and honours cancellation.

Beside the engine, the model covers:

- the reader and the writers of one measure;
- the resolution of DSS write paths;
- the runtime parameters' credential lookup;
- the CSV export engine and the CSV profile mapper;
- the legacy Merlin-to-HEC conversions, location lookup and time-series lookup.

Outside collaborators are parameters of the model, never code it pretends to see. This covers:

- the Merlin web service (templates, quality versions, measures, events, authentication);
- XML parsing;
- conversion to a HEC time-series container;
- `Path.isAbsolute`;
- the DSS file manager's `writeTS` status;
- the moments at which a cancellation request arrives. Each read of the cancel flag is a named
  checkpoint, and a request may arrive just before any of them. The engine keeps a ghost log of
  the checkpoints it has passed. A set is gated by the flag at its turn, so it runs only if no
  checkpoint logged earlier in the run carried a request.

Each service answer is a `Result`. Its failure is the exception the call would raise.

Layout, one module per source file:

- `CompletionTracking`: the completion tracker, as a class.
- `ExchangeParameters`: the runtime parameters.
- `DssWritePath`: the write-path resolution.
- `DaoReader`, `DaoWriter`, `DssWriter`: reading and writing one measure.
- `ExchangeEngine`: the engine, as a class with its caches and cancellation flag. Its caching and
  its set ordering are specified by functions.
- `CsvProfile`: the CSV mapper.
- `ExportEngine`: the export engine.
- `MerlinDataConverter`, `LocationDao`, `TimeSeriesDao`: the legacy model package.
- `Wrappers`, `JavaStrings`, `Streams`, `MerlinTypes`, `Progress`, `Dss`: shared helpers and
  stand-ins for library types.

## Model

| member | source | states |
|---|---|---|
| CompletionTracking.TruncDiv | merlin-data-exchange/src/main/java/gov/usbr/wq/merlindataexchange/MerlinExchangeDaoCompletionTracker.java:21 | the `(int)` cast of the weighted fraction truncates toward zero: the quotient brackets a non-negative numerator from below and a negative one from above |
| CompletionTracking.PercentAtLeastBase | merlin-data-exchange/src/main/java/gov/usbr/wq/merlindataexchange/MerlinExchangeDaoCompletionTracker.java:19-22 | the reported percentage never falls below the share allotted to the initial setup |
| CompletionTracking.PercentMonotone | merlin-data-exchange/src/main/java/gov/usbr/wq/merlindataexchange/MerlinExchangeDaoCompletionTracker.java:18-22 | completing more read/write tasks never lowers the reported percentage |
| CompletionTracking.PercentAtMost100 | merlin-data-exchange/src/main/java/gov/usbr/wq/merlindataexchange/MerlinExchangeDaoCompletionTracker.java:19-22 | while at most two tasks (one read, one write) per measure have completed, the percentage is at most 100 |
| CompletionTracking.PercentReaches100 | merlin-data-exchange/src/main/java/gov/usbr/wq/merlindataexchange/MerlinExchangeDaoCompletionTracker.java:19-22 | after exactly two tasks per measure the percentage is exactly 100, whatever the setup share |
| CompletionTracking.PercentOvershoots | merlin-data-exchange/src/main/java/gov/usbr/wq/merlindataexchange/MerlinExchangeDaoCompletionTracker.java:18-22 | with one measure and a 5% setup share, a third completed task reports 147%: nothing caps the count |
| CompletionTracking.MerlinExchangeDaoCompletionTracker.constructor | merlin-data-exchange/src/main/java/gov/usbr/wq/merlindataexchange/MerlinExchangeDaoCompletionTracker.java:10-14 | the tracker records the measure count and the setup share, with nothing yet completed |
| CompletionTracking.MerlinExchangeDaoCompletionTracker.ReadWriteTaskCompleted | merlin-data-exchange/src/main/java/gov/usbr/wq/merlindataexchange/MerlinExchangeDaoCompletionTracker.java:16-23 | the completed count grows by one and the returned percentage is the weighted percentage of the new count |
| ExchangeParameters.MerlinDataExchangeParameters.GetUsernamePasswordForUrl | merlin-data-exchange/src/main/java/gov/usbr/wq/merlindataexchange/MerlinDataExchangeParameters.java:61-68 | credentials are found iff some authentication entry's URL equals the requested one ignoring case; the first such entry's credentials are returned; otherwise the not-found error names the URL |
| ExchangeParameters.NoCredentialsNeverFound | merlin-data-exchange/src/main/java/gov/usbr/wq/merlindataexchange/MerlinDataExchangeParameters.java:61-68 | with no authentication entries every lookup fails with the URL |
| ExchangeParameters.LookupIgnoresCase | merlin-data-exchange/src/main/java/gov/usbr/wq/merlindataexchange/MerlinDataExchangeParameters.java:63-67 | the first entry whose URL matches ignoring case supplies the credentials |
| ExchangeParameters.CredentialLookupScenario | merlin-data-exchange/src/test/java/gov/usbr/wq/merlindataexchange/AuthenticationParametersTest.java:28-47 | the test's parameters: the stored URL yields its credentials and an unknown URL raises the not-found error naming it |
| DssWritePath.BuildAbsoluteDssWritePath | merlin-data-exchange/src/main/java/gov/usbr/wq/merlindataexchange/MerlinDataExchangeEngine.java:205-214 | an absolute path is kept; any other path has every occurrence of the watershed token replaced by the watershed directory, so a relative path without the token is kept too |
| DssWritePath.WatershedPrefixResolved | merlin-data-exchange/src/main/java/gov/usbr/wq/merlindataexchange/MerlinDataExchangeEngine.java:205-214 | a relative path that starts with the watershed token resolves to the watershed directory followed by the rest |
| DaoReader.DefaultWindow | merlin-data-exchange/src/main/java/gov/usbr/wq/merlindataexchange/MerlinDaoReader.java:30-40 | a missing start becomes Long.MIN_VALUE and a missing end Long.MAX_VALUE; given bounds are kept |
| DaoReader.UnboundedWindowCoversEveryInstant | merlin-data-exchange/src/main/java/gov/usbr/wq/merlindataexchange/MerlinDaoReader.java:30-37 | the default window contains every representable instant |
| DaoReader.FetchedData | merlin-data-exchange/src/main/java/gov/usbr/wq/merlindataexchange/MerlinDaoReader.java:64-85 | data is fetched iff the exchange was not cancelled and the service answered; a cancelled read fetches nothing |
| DaoReader.RetrieveDataWithUpdatedTimeWindow | merlin-data-exchange/src/main/java/gov/usbr/wq/merlindataexchange/MerlinDaoReader.java:64-85 | returns the fetched data, advances the tracker only on a successful fetch, reports success with the new percentage or failure as an error, and reports nothing once cancelled |
| DaoReader.ReadData | merlin-data-exchange/src/main/java/gov/usbr/wq/merlindataexchange/MerlinDaoReader.java:26-62 | the window is defaulted and the data fetched as above; a read cancelled before conversion yields no container; otherwise a converted series becomes a container, an unsupported timestep is reported and yields none, and a crashing conversion fails the read |
| DaoWriter.MerlinDaoWriter.constructor | merlin-data-exchange/src/main/java/gov/usbr/wq/merlindataexchange/MerlinDaoWriter.java:16-20 | the writer keeps the file manager and the write path |
| DaoWriter.MerlinDaoWriter.WriteData | merlin-data-exchange/src/main/java/gov/usbr/wq/merlindataexchange/MerlinDaoWriter.java:22-40 | the tracker always advances by one; a null container or a cancelled exchange writes nothing; otherwise the one series is written to the writer's path |
| DaoWriter.MerlinDaoWriter.Close | merlin-data-exchange/src/main/java/gov/usbr/wq/merlindataexchange/MerlinDaoWriter.java:42-45 | the writer's path is closed and no write happens |
| DssWriter.DssDataExchangeWriter.Initialize | merlin-data-exchange/src/main/java/gov/usbr/wq/merlindataexchange/io/DssDataExchangeWriter.java:57-62 | the writer becomes initialised with the manager and the resolved absolute write path |
| DssWriter.DssDataExchangeWriter.GetDestinationPath | merlin-data-exchange/src/main/java/gov/usbr/wq/merlindataexchange/io/DssDataExchangeWriter.java:70-74 | the destination is the resolved write path |
| DssWriter.DssDataExchangeWriter.Close | merlin-data-exchange/src/main/java/gov/usbr/wq/merlindataexchange/io/DssDataExchangeWriter.java:64-68 | the write path is closed and no write happens |
| DssWriter.DssDataExchangeWriter.WriteData | merlin-data-exchange/src/main/java/gov/usbr/wq/merlindataexchange/io/DssDataExchangeWriter.java:28-55 | a null container or a cancelled exchange writes nothing; otherwise one series is written to the write path, and the tracker advances only when the write status is 0 |
| ExchangeEngine.GetThreadPoolSize | merlin-data-exchange/src/main/java/gov/usbr/wq/merlindataexchange/MerlinDataExchangeEngine.java:53-71 | a set property gives its parsed value, at least 1, and an unparsable one is a NumberFormatException; with no property the size is exactly five times half the logical processors, counting at least one core |
| ExchangeEngine.DefaultPoolSizes | merlin-data-exchange/src/main/java/gov/usbr/wq/merlindataexchange/MerlinDataExchangeEngine.java:64-76 | eight logical processors give 20 threads and one gives 5 |
| ExchangeEngine.PoolSizeAtLeastOne | merlin-data-exchange/src/main/java/gov/usbr/wq/merlindataexchange/MerlinDataExchangeEngine.java:59-63 | a digit-string property, "0" included, gives its decimal value raised to at least 1 |
| ExchangeEngine.GetTemplateFromDataExchangeSet | merlin-data-exchange/src/main/java/gov/usbr/wq/merlindataexchange/MerlinDataExchangeEngine.java:265-294 | the answer is a cached template; a template matching the set's name ignoring case is preferred; only when none matches by name is one matched by id |
| ExchangeEngine.NameMatchTakesPrecedence | merlin-data-exchange/src/main/java/gov/usbr/wq/merlindataexchange/MerlinDataExchangeEngine.java:273-283 | of a template matching by id and another matching by name, the name match is chosen |
| ExchangeEngine.GetQualityVersionIdFromDataExchangeSet | merlin-data-exchange/src/main/java/gov/usbr/wq/merlindataexchange/MerlinDataExchangeEngine.java:242-263 | the same name-before-id rule, for quality versions; when no name matches, a set without an id raises NullPointerException if any version is cached, and resolves to none if none is |
| ExchangeEngine.DestinationRef | merlin-data-exchange/src/main/java/gov/usbr/wq/merlindataexchange/MerlinDataExchangeEngine.java:156-161 | the destination is one of the set's two data-store references: the first one exactly when the source is the second (ignoring case), the second one otherwise |
| ExchangeEngine.DestinationIsNotSource | merlin-data-exchange/src/main/java/gov/usbr/wq/merlindataexchange/MerlinDataExchangeEngine.java:156-161 | when the source names one of two distinct stores, the destination is the other one |
| ExchangeEngine.AsWrittenAgreesWhenAllParsed | merlin-data-exchange/src/main/java/gov/usbr/wq/merlindataexchange/MerlinDataExchangeEngine.java:347-362 | the measure cache as written equals the corrected one when every configuration parsed, and fails when one did not |
| ExchangeEngine.UnparsedConfigurationFailsInitialization | merlin-data-exchange/src/main/java/gov/usbr/wq/merlindataexchange/MerlinDataExchangeEngine.java:349-351 | one unparsable configuration makes the cache initialisation as written fail, while the corrected one caches the parsed sets |
| ExchangeEngine.CacheSetsKeepEntries | merlin-data-exchange/src/main/java/gov/usbr/wq/merlindataexchange/MerlinDataExchangeEngine.java:352-359 | caching the measures of sets never drops or changes an entry already cached |
| ExchangeEngine.CacheConfigsKeepEntries | merlin-data-exchange/src/main/java/gov/usbr/wq/merlindataexchange/MerlinDataExchangeEngine.java:347-362 | the same, for every configuration |
| ExchangeEngine.CacheSetsStayConsistent | merlin-data-exchange/src/main/java/gov/usbr/wq/merlindataexchange/MerlinDataExchangeEngine.java:355-358 | every cached template has been requested exactly as the cache records, before and after caching a set list |
| ExchangeEngine.CacheConfigsStayConsistent | merlin-data-exchange/src/main/java/gov/usbr/wq/merlindataexchange/MerlinDataExchangeEngine.java:347-362 | the same, for every configuration |
| ExchangeEngine.CacheSetsCover | merlin-data-exchange/src/main/java/gov/usbr/wq/merlindataexchange/MerlinDataExchangeEngine.java:352-359 | after caching, every set whose template resolves has that template's measures cached |
| ExchangeEngine.CacheConfigsCover | merlin-data-exchange/src/main/java/gov/usbr/wq/merlindataexchange/MerlinDataExchangeEngine.java:347-362 | after caching, every set of every parsed configuration is covered |
| ExchangeEngine.CacheSetsAddOnlyResolved | merlin-data-exchange/src/main/java/gov/usbr/wq/merlindataexchange/MerlinDataExchangeEngine.java:354-358 | a template enters the cache only when some set resolves to it |
| ExchangeEngine.SumOfSizesRemove | merlin-data-exchange/src/main/java/gov/usbr/wq/merlindataexchange/MerlinDataExchangeEngine.java:110-112 | the total measure count is one template's measures plus the rest's |
| ExchangeEngine.SizeAtMostSum | merlin-data-exchange/src/main/java/gov/usbr/wq/merlindataexchange/MerlinDataExchangeEngine.java:110-113 | no template has more measures than the tracker's total |
| ExchangeEngine.SetPositions | merlin-data-exchange/src/main/java/gov/usbr/wq/merlindataexchange/MerlinDataExchangeEngine.java:137-150 | a parsed configuration runs its sets in order and an unparsed one runs none |
| ExchangeEngine.MerlinDataExchangeEngine.constructor | merlin-data-exchange/src/main/java/gov/usbr/wq/merlindataexchange/MerlinDataExchangeEngine.java:45-51 | the engine starts with empty caches, no listener, no cancellation and no set run |
| ExchangeEngine.MerlinDataExchangeEngine.CancelExtract | merlin-data-exchange/src/main/java/gov/usbr/wq/merlindataexchange/MerlinDataExchangeEngine.java:90-98 | the cancellation flag is set, the listener (if any) is told, and nothing else changes |
| ExchangeEngine.MerlinDataExchangeEngine.ParseDataExchangeConfiguration | merlin-data-exchange/src/main/java/gov/usbr/wq/merlindataexchange/MerlinDataExchangeEngine.java:296-312 | returns the parser's answer and reports an error exactly when the file does not parse |
| ExchangeEngine.MerlinDataExchangeEngine.ParseConfigurations | merlin-data-exchange/src/main/java/gov/usbr/wq/merlindataexchange/MerlinDataExchangeEngine.java:129-135 | one result per file, in order, with one error report per unparsable file |
| ExchangeEngine.MerlinDataExchangeEngine.CacheMeasuresOfSets | merlin-data-exchange/src/main/java/gov/usbr/wq/merlindataexchange/MerlinDataExchangeEngine.java:352-360 | the measure cache and log after the loop are exactly the cache specification applied to the sets |
| ExchangeEngine.MerlinDataExchangeEngine.RetrieveMeasures | merlin-data-exchange/src/main/java/gov/usbr/wq/merlindataexchange/MerlinDataExchangeEngine.java:225-240 | returns the template's measures, or none on a failure, records one request, and logs the outcome |
| ExchangeEngine.MerlinDataExchangeEngine.InitializeCachedMeasurements | merlin-data-exchange/src/main/java/gov/usbr/wq/merlindataexchange/MerlinDataExchangeEngine.java:347-362 | (corrected fill) the cache is the corrected specification applied to all configurations, skipping unparsed ones, and every parsed configuration's sets are covered |
| ExchangeEngine.MerlinDataExchangeEngine.TotalMeasures | merlin-data-exchange/src/main/java/gov/usbr/wq/merlindataexchange/MerlinDataExchangeEngine.java:110-112 | the total is the sum of the cached measure lists' sizes |
| ExchangeEngine.MerlinDataExchangeEngine.InitializeCache | merlin-data-exchange/src/main/java/gov/usbr/wq/merlindataexchange/MerlinDataExchangeEngine.java:314-345 | (corrected fill) templates and quality versions are fetched only when a cache is empty; a failed fetch is an initialisation error with an error report; a cancellation before the measures leaves them uncached; otherwise the measures are cached by the corrected fill and every set is covered |
| ExchangeEngine.MerlinDataExchangeEngine.CacheMeasuresUnlessCancelled | merlin-data-exchange/src/main/java/gov/usbr/wq/merlindataexchange/MerlinDataExchangeEngine.java:329-332 | (corrected fill) the flag is read once, at a logged checkpoint, and set afterwards exactly when it was set or a request arrived there; a cancelled call caches nothing and only notes the request; otherwise the measures are cached by the corrected fill, every set is covered, and the templates, quality versions and sets run are unchanged |
| ExchangeEngine.MerlinDataExchangeEngine.ReadMeasure | merlin-data-exchange/src/main/java/gov/usbr/wq/merlindataexchange/MerlinDaoReader.java:26-75 | the flag is read before the fetch and before the conversion, and both reads are logged; a flag set by either makes the read yield no series; the tracker advances by at most one |
| ExchangeEngine.MerlinDataExchangeEngine.ExchangeMeasure | merlin-data-exchange/src/main/java/gov/usbr/wq/merlindataexchange/MerlinDataExchangeDao.java:21-38 | a cancelled exchange reads and writes nothing; otherwise at most one series is written, to the writer's path, and the tracker advances by at most two; the cancel flag is set afterwards exactly when it was set before or a cancel request arrived at a checkpoint the call passed |
| ExchangeEngine.MerlinDataExchangeEngine.ExchangeData | merlin-data-exchange/src/main/java/gov/usbr/wq/merlindataexchange/MerlinDataExchangeEngine.java:173-203 | an unresolved template is reported and exchanges nothing; a failed quality-version resolution fails the set before any file is opened; otherwise every write goes to the destination's resolved path, that path is closed once, and the writes and tracker progress are bounded by the template's measures |
| ExchangeEngine.MerlinDataExchangeEngine.ExchangeDataForSet | merlin-data-exchange/src/main/java/gov/usbr/wq/merlindataexchange/MerlinDataExchangeEngine.java:153-171 | a missing destination store is reported and exchanges nothing; otherwise every write goes to the destination's resolved path |
| ExchangeEngine.MerlinDataExchangeEngine.ExtractSet | merlin-data-exchange/src/main/java/gov/usbr/wq/merlindataexchange/MerlinDataExchangeEngine.java:143-149 | the set runs exactly when the flag reads clear at its turn, that is, when it was clear before and no cancel request arrives there; the turn is logged and a skipped set crashes nothing |
| ExchangeEngine.MerlinDataExchangeEngine.ExtractConfiguration | merlin-data-exchange/src/main/java/gov/usbr/wq/merlindataexchange/MerlinDataExchangeEngine.java:137-151 | the sets that run are a prefix of the configuration's sets, in order; each ran at its own logged turn, and no checkpoint the visit passed up to that turn (an earlier set's measure, fetch, conversion or write included) carried a cancel request; none runs once cancelled before; the cancel flag is set afterwards exactly when it was set before or a cancel request arrived at a checkpoint the call passed; all run when the run does not crash and no cancel request arrived. So after a set skipped for cancellation no later set runs |
| ExchangeEngine.MerlinDataExchangeEngine.ExtractConfigurations | merlin-data-exchange/src/main/java/gov/usbr/wq/merlindataexchange/MerlinDataExchangeEngine.java:114-114 | the sets that run are a prefix of all configurations' sets, in order; each ran with no cancel request at any checkpoint of the extraction up to its turn; the cancel flag is set afterwards exactly when it was set before or a cancel request arrived at a checkpoint the call passed; all run unless the run crashed or a cancel request arrived |
| ExchangeEngine.MerlinDataExchangeEngine.Finish | merlin-data-exchange/src/main/java/gov/usbr/wq/merlindataexchange/MerlinDataExchangeEngine.java:120-127 | a cancellation (earlier or now) is reported as a graceful cancellation, and the listener is then finished |
| ExchangeEngine.MerlinDataExchangeEngine.BeginExtract | merlin-data-exchange/src/main/java/gov/usbr/wq/merlindataexchange/MerlinDataExchangeEngine.java:100-118 | (corrected fill) an initialisation error runs no set and never finishes the listener; otherwise the sets run in order as a prefix; each ran with no cancel request at any checkpoint of the call up to its turn, the one before extraction included; the cancel flag is set afterwards exactly when it was set before or a cancel request arrived at a checkpoint the call passed; every set runs unless the run crashed or a cancel request arrived; the last event is the finish |
| ExchangeEngine.MerlinDataExchangeEngine.InitializeAndExtract | merlin-data-exchange/src/main/java/gov/usbr/wq/merlindataexchange/MerlinDataExchangeEngine.java:86-87 | (corrected fill) cache initialisation and then extraction; a failed initialisation runs no set and is the outcome; otherwise the sets run as a prefix of the configurations' sets, each with no cancel request up to its turn; the cancel flag is set afterwards exactly when it was set before or a cancel request arrived at a checkpoint the call passed; a completed run with the flag clear runs every set and ends with the finish |
| ExchangeEngine.MerlinDataExchangeEngine.ExtractFiles | merlin-data-exchange/src/main/java/gov/usbr/wq/merlindataexchange/MerlinDataExchangeEngine.java:84-87 | (corrected fill) the parse, initialisation and extraction steps run in sequence; the sets that run are a prefix of the parsed configurations' sets, each with no cancel request at any checkpoint of the run up to its turn; the cancel flag is set afterwards exactly when it was set before or a cancel request arrived at a checkpoint the call passed; a failed initialisation runs no set, a completed run with the flag clear runs every set, and a completed run ends with the finish |
| ExchangeEngine.MerlinDataExchangeEngine.RunExtract | merlin-data-exchange/src/main/java/gov/usbr/wq/merlindataexchange/MerlinDataExchangeEngine.java:79-88 | (corrected fill) the listener is started and the flag reset; a failed authentication stops the run there; otherwise the sets that run are a prefix of the parsed configurations' sets, in order, each with no cancel request at any checkpoint of the run up to its turn; the flag is set afterwards exactly when a cancel request arrived during the run; a completed run with no cancel request runs every set, and it ends with the finish |
| ExchangeEngine.CacheSetsAppendMessages | merlin-data-exchange/src/main/java/gov/usbr/wq/merlindataexchange/MerlinDataExchangeEngine.java:352-360 | caching the sets only appends messages to the log |
| ExchangeEngine.CacheConfigsAppendMessages | merlin-data-exchange/src/main/java/gov/usbr/wq/merlindataexchange/MerlinDataExchangeEngine.java:347-362 | caching the configurations only appends messages to the log |
| ExchangeEngine.ParseAll | merlin-data-exchange/src/main/java/gov/usbr/wq/merlindataexchange/MerlinDataExchangeEngine.java:129-135 | one parse result per file, in the files' order |
| ExchangeEngine.ParseEventsReportFailures | merlin-data-exchange/src/main/java/gov/usbr/wq/merlindataexchange/MerlinDataExchangeEngine.java:305-310 | every report names an unparsable file, and each unparsable file is reported |
| CsvProfile.BuildHeaders | merlin-data-exchange/src/main/java/gov/usbr/wq/merlindataexchange/io/wq/CsvProfileObjectMapper.java:146-155 | the header list is "Date" followed by one "parameter(unit)" header per constituent, in order |
| CsvProfile.BuildCsvRows | merlin-data-exchange/src/main/java/gov/usbr/wq/merlindataexchange/io/wq/CsvProfileObjectMapper.java:157-179 | the rows built in place equal the row specification: one row per value of the first constituent, or the fault the loop raises |
| CsvProfile.ParseHeader | merlin-data-exchange/src/main/java/gov/usbr/wq/merlindataexchange/io/wq/CsvProfileObjectMapper.java:124-129 | a header without "(" is not a constituent; otherwise the parameter is the text before "(" and the unit lies between "(" and ")" |
| CsvProfile.HeaderRoundTrip | merlin-data-exchange/src/main/java/gov/usbr/wq/merlindataexchange/io/wq/CsvProfileObjectMapper.java:124-129 | parsing a constituent's header gives back its parameter and unit |
| CsvProfile.ColumnValues | merlin-data-exchange/src/main/java/gov/usbr/wq/merlindataexchange/io/wq/CsvProfileObjectMapper.java:130-136 | one value per row, present exactly when the row maps that header, and equal to the mapped value |
| CsvProfile.BuildProfileSampleFromRows | merlin-data-exchange/src/main/java/gov/usbr/wq/merlindataexchange/io/wq/CsvProfileObjectMapper.java:116-144 | no rows give no sample; otherwise the sample's date is the first row's and its constituents are those of the parenthesised headers |
| CsvProfile.NoFaultWhenWellFormed | merlin-data-exchange/src/main/java/gov/usbr/wq/merlindataexchange/io/wq/CsvProfileObjectMapper.java:167-177 | constituents of equal length without nulls raise no fault while rows are built |
| CsvProfile.RowMappingHoldsEveryValue | merlin-data-exchange/src/main/java/gov/usbr/wq/merlindataexchange/io/wq/CsvProfileObjectMapper.java:167-177 | with distinct headers each row maps every constituent's header to its value, and to nothing else |
| CsvProfile.CsvRowsOfWellFormedSample | merlin-data-exchange/src/main/java/gov/usbr/wq/merlindataexchange/io/wq/CsvProfileObjectMapper.java:157-179 | a well-formed sample yields one row per value, each holding every constituent's value |
| CsvProfile.ColumnOfWellFormedSample | merlin-data-exchange/src/main/java/gov/usbr/wq/merlindataexchange/io/wq/CsvProfileObjectMapper.java:130-136 | reading a constituent's column back from the rows gives its values |
| CsvProfile.ConstituentsOfHeaderPrefix | merlin-data-exchange/src/main/java/gov/usbr/wq/merlindataexchange/io/wq/CsvProfileObjectMapper.java:122-140 | the first k constituent headers rebuild the first k constituents |
| CsvProfile.DateHeaderHasNoConstituent | merlin-data-exchange/src/main/java/gov/usbr/wq/merlindataexchange/io/wq/CsvProfileObjectMapper.java:124-124 | the Date column rebuilds no constituent |
| CsvProfile.ConstituentsRoundTrip | merlin-data-exchange/src/main/java/gov/usbr/wq/merlindataexchange/io/wq/CsvProfileObjectMapper.java:120-179 | reading the rows written for a well-formed sample back under its headers gives its constituents again, in order |
| CsvProfile.ProfileRoundTrip | merlin-data-exchange/src/main/java/gov/usbr/wq/merlindataexchange/io/wq/CsvProfileObjectMapper.java:116-179 | writing a well-formed sample to rows and reading it back gives the same sample |
| CsvProfile.SerializedKeys | merlin-data-exchange/src/main/java/gov/usbr/wq/merlindataexchange/io/wq/CsvProfileObjectMapper.java:241-248 | the serialised keys are headers present in the mapping, each once, and every such header is among them |
| CsvProfile.SerializeMapping | merlin-data-exchange/src/main/java/gov/usbr/wq/merlindataexchange/io/wq/CsvProfileObjectMapper.java:249-254 | one value per serialised key, and never more values than headers |
| CsvProfile.SerializedKeysAtMostHeaders | merlin-data-exchange/src/main/java/gov/usbr/wq/merlindataexchange/io/wq/CsvProfileObjectMapper.java:241-248 | never more keys than headers |
| CsvProfile.SerializedKeysFilterHeaders | merlin-data-exchange/src/main/java/gov/usbr/wq/merlindataexchange/io/wq/CsvProfileObjectMapper.java:241-248 | with distinct headers the keys are exactly the headers present in the mapping, in header order |
| CsvProfile.DateIsNoConstituentHeader | merlin-data-exchange/src/main/java/gov/usbr/wq/merlindataexchange/io/wq/CsvProfileObjectMapper.java:149-152 | no constituent header collides with "Date" |
| CsvProfile.HeadersDistinct | merlin-data-exchange/src/main/java/gov/usbr/wq/merlindataexchange/io/wq/CsvProfileObjectMapper.java:146-155 | distinct constituents give distinct headers |
| CsvProfile.SerializedRowFollowsHeaders | merlin-data-exchange/src/main/java/gov/usbr/wq/merlindataexchange/io/wq/CsvProfileObjectMapper.java:239-255 | a row of a well-formed sample serialises to its constituents' values in header order |
| CsvProfile.RowKeysFollowHeaders | merlin-data-exchange/src/main/java/gov/usbr/wq/merlindataexchange/io/wq/CsvProfileObjectMapper.java:239-255 | the keys a data row is written under are the headers after "Date", in order |
| ExportEngine.MergeEntry | merlin-data-exchange/src/main/java/gov/usbr/wq/merlindataexchange/MerlinDataExportEngine.java:106-110 | merging keeps the map sorted by profile id and only holds the merged template or templates already present |
| ExportEngine.MergeEntryLookup | merlin-data-exchange/src/main/java/gov/usbr/wq/merlindataexchange/MerlinDataExportEngine.java:103-110 | after merging, the merged template's id maps to its measures appended to any measures already there; other ids are unchanged |
| ExportEngine.Collect | merlin-data-exchange/src/main/java/gov/usbr/wq/merlindataexchange/MerlinDataExportEngine.java:83-111 | the collected map is sorted by profile id |
| ExportEngine.CollectedByDprId | merlin-data-exchange/src/main/java/gov/usbr/wq/merlindataexchange/MerlinDataExportEngine.java:102-111 | each profile id holds the first template with that id and the measures of every template with that id, in order; an id with no template is absent |
| ExportEngine.CollectTemplateMeasureData | merlin-data-exchange/src/main/java/gov/usbr/wq/merlindataexchange/MerlinDataExportEngine.java:73-113 | collection fails exactly when authentication or the template fetch fails; on success the map is sorted by profile id |
| ExportEngine.RunCsvExport | merlin-data-exchange/src/main/java/gov/usbr/wq/merlindataexchange/MerlinDataExportEngine.java:47-59 | (corrected collection) the export succeeds exactly when the corrected collection does, and fails whenever authentication fails |
| ExportEngine.RunCsvExportAsWritten | merlin-data-exchange/src/main/java/gov/usbr/wq/merlindataexchange/MerlinDataExportEngine.java:47-59 | the export as written succeeds exactly when the collection as written does |
| ExportEngine.RunExport | merlin-data-exchange/src/main/java/gov/usbr/wq/merlindataexchange/MerlinDataExportEngine.java:37-45 | the JSON type is rejected as unsupported; the CSV type runs the CSV export built on the corrected collection |
| ExportEngine.MeasureFetchFailureFailsExport | merlin-data-exchange/src/main/java/gov/usbr/wq/merlindataexchange/MerlinDataExportEngine.java:94-98 | as written, a failed measure fetch for any template fails the whole export, while the corrected export succeeds |
| ExportEngine.SingleFailedTemplateFailsExport | merlin-data-exchange/src/main/java/gov/usbr/wq/merlindataexchange/MerlinDataExportEngine.java:94-98 | one template whose measures cannot be fetched: the export as written fails and the corrected one succeeds |
| MerlinDataConverter.ProfileToLocationTemplate | src/main/java/gov/usbr/wq/merlintohec/model/MerlinDataConverter.java:42-45 | the template lies at the profile's name in the given office |
| MerlinDataConverter.LocationTemplateToProfile | src/main/java/gov/usbr/wq/merlintohec/model/MerlinDataConverter.java:47-51 | the profile is named after the location and has no id |
| MerlinDataConverter.TimeSeriesIdToMeasure | src/main/java/gov/usbr/wq/merlintohec/model/MerlinDataConverter.java:53-57 | the measure's series string is the identifier |
| MerlinDataConverter.MeasureToTimeSeriesId | src/main/java/gov/usbr/wq/merlintohec/model/MerlinDataConverter.java:59-62 | (pathname parse abstracted) the pathname is the measure's series string |
| MerlinDataConverter.ProfileNameRoundTrip | src/main/java/gov/usbr/wq/merlintohec/model/MerlinDataConverter.java:42-51 | a profile's name survives the trip through a location template; only its id is lost |
| MerlinDataConverter.SeriesStringRoundTrip | src/main/java/gov/usbr/wq/merlintohec/model/MerlinDataConverter.java:53-62 | a measure survives the trip through a pathname and back |
| MerlinDataConverter.ConverterTestCases | src/test/java/gov/usbr/wq/merlintohec/model/MerlinDataConverterTest.java:26-57 | the four converter tests' expectations on their fixtures |
| MerlinDataConverter.Converted | src/main/java/gov/usbr/wq/merlintohec/model/MerlinDataConverter.java:75-109 | slot k holds event k's time, its value or the undefined marker, and its quality or 0; a quality array is built exactly when some event lacks a quality |
| MerlinDataConverter.FilledAsWritten | src/main/java/gov/usbr/wq/merlintohec/model/MerlinDataConverter.java:80-102 | as written, slot 0 holds the last event and every other slot stays 0 |
| MerlinDataConverter.DataToTimeSeriesAsWritten | src/main/java/gov/usbr/wq/merlintohec/model/MerlinDataConverter.java:75-109 | the loop as written produces exactly the as-written arrays |
| MerlinDataConverter.DataToTimeSeries | src/main/java/gov/usbr/wq/merlintohec/model/MerlinDataConverter.java:75-109 | the corrected loop produces exactly the intended arrays |
| MerlinDataConverter.AsWrittenLosesEvents | src/main/java/gov/usbr/wq/merlintohec/model/MerlinDataConverter.java:80-102 | with two or more events that differ where it matters, the arrays as written differ from the intended ones |
| MerlinDataConverter.TwoEventsExample | src/main/java/gov/usbr/wq/merlintohec/model/MerlinDataConverter.java:82-102 | two events at 1000 and 2000: intended times [1000, 2000], as written [2000, 0] |
| LocationDao.TemplatesOf | src/main/java/gov/usbr/wq/merlintohec/model/MerlinLocationDao.java:51-53 | one template per profile, in order, each in the given office at the profile's name |
| LocationDao.CatalogLocationTemplates | src/main/java/gov/usbr/wq/merlintohec/model/MerlinLocationDao.java:33-54 | a failed fetch is an access exception, no profiles is "no data", and otherwise every profile becomes a template of the office |
| LocationDao.RetrieveLocationTemplate | src/main/java/gov/usbr/wq/merlintohec/model/MerlinLocationDao.java:56-65 | catalog failures pass through; otherwise the answer is the first template of the office whose id equals the requested one ignoring case, or "no data" when none does |
| LocationDao.LookupByProfileName | src/main/java/gov/usbr/wq/merlintohec/model/MerlinLocationDao.java:51-63 | the lookup succeeds iff some profile is named like the location ignoring case, and answers with the first such profile |
| LocationDao.LookupIgnoresCase | src/main/java/gov/usbr/wq/merlintohec/model/MerlinLocationDao.java:59-59 | two location ids equal ignoring case find the same template |
| TimeSeriesDao.AccessFailure | src/main/java/gov/usbr/wq/merlintohec/model/MerlinTimeSeriesDao.java:42-50 | an I/O failure is an access exception and a refused request is "no data" |
| TimeSeriesDao.RetrieveTimeSeriesIds | src/main/java/gov/usbr/wq/merlintohec/model/MerlinTimeSeriesDao.java:33-53 | succeeds iff the measurements are fetched, and then always with no identifiers; failures are mapped as above |
| TimeSeriesDao.SimilarPositions | src/main/java/gov/usbr/wq/merlintohec/model/MerlinTimeSeriesDao.java:69-71 | the positions of the identifiers that describe the same data as the requested one, strictly increasing, each such position listed |
| TimeSeriesDao.FilterPicksSimilarPositions | src/main/java/gov/usbr/wq/merlintohec/model/MerlinTimeSeriesDao.java:69-71 | the filtered list holds exactly the identifiers at the similar positions, one per position, in order |
| TimeSeriesDao.OnePositionIsUniqueIndex | src/main/java/gov/usbr/wq/merlintohec/model/MerlinTimeSeriesDao.java:69-83 | when one position is similar, that index describes the same data and no other index does |
| TimeSeriesDao.UniqueIndexIsOnePosition | src/main/java/gov/usbr/wq/merlintohec/model/MerlinTimeSeriesDao.java:69-83 | an index that alone describes the same data is the only similar position |
| TimeSeriesDao.UniqueSimilarPosition | src/main/java/gov/usbr/wq/merlintohec/model/MerlinTimeSeriesDao.java:69-83 | there is one similar position iff exactly one index describes the same data |
| TimeSeriesDao.SelectUniqueCountsSimilar | src/main/java/gov/usbr/wq/merlintohec/model/MerlinTimeSeriesDao.java:72-83 | the lookup succeeds iff there is exactly one similar position, answering the identifier there; "too many" names one identifier per similar position, in order |
| TimeSeriesDao.SelectUniqueSucceedsIffOneIndex | src/main/java/gov/usbr/wq/merlintohec/model/MerlinTimeSeriesDao.java:72-88 | the lookup succeeds iff exactly one index of the list describes the same data as the requested identifier |
| TimeSeriesDao.SelectUnique | src/main/java/gov/usbr/wq/merlintohec/model/MerlinTimeSeriesDao.java:69-83 | no similar identifier is "no such series"; several are "too many", naming exactly the similar ones; a success is similar and every similar identifier equals it |
| TimeSeriesDao.RetrieveTimeSeries | src/main/java/gov/usbr/wq/merlintohec/model/MerlinTimeSeriesDao.java:55-108 | a missing office fails; location failures pass through; a success means every step succeeded and the result is the one converted series |
| TimeSeriesDao.RetrieveTimeSeriesNeverSucceeds | src/main/java/gov/usbr/wq/merlintohec/model/MerlinTimeSeriesDao.java:67-74 | because the identifier list is always empty, retrieval never succeeds, and once the location and measurements are found it fails with "no such series" |

## Left out

- Concurrency. The executor, the futures and their `join` are modelled as running in sequence. The
  model therefore captures neither interleavings nor the unsynchronised tracker counter. It also
  does not capture the join that waits forever when a cancelled measure returns an uncompleted
  future (`MerlinDataExchangeDao.java`, lines 25-37). A cancelled measure simply does nothing.
- Floating point. The tracker's percentage is computed with integers and truncating division.
  `DoubleSerializer`'s choice between an integer and a double literal is not modelled.
- CSV and XML I/O. Jackson, file reading and writing, and date parsing become parameters or are
  left out. `writeToCsv` writes nothing in the source and is not modelled.
- Case folding and `Integer.parseInt` are modelled on ASCII letters and decimal digits only.
- `Paths.get(...).isAbsolute()` is a parameter.
- Map keys. Templates are map keys by value equality. HashMap's use of `TemplateWrapper` equality
  is not modelled.
- The total-measures sum is an unbounded integer: a 32-bit overflow is not modelled.
- A set with a null template name or a null quality-version name is not modelled.
- Components not modelled: the `lookUpDao` and `Lookups` factories, the fluent builders, and
  `MerlinExchangeEngineBuilder`.
- `MerlinParameters` is not part of this model. `MerlinDataExchangeParameters` is modelled from its
  own file.
- The tracker method called by the DSS writer does not exist in the tracker's source. It is
  modelled as `ReadWriteTaskCompleted`.
- Message text is not modelled: progress messages are tagged by kind. The log keeps every message
  the source sends with a percentage, every ERROR message, and three IMPORTANT messages without a
  percentage that report a skip or a cancellation: the unsupported timestep, the cancel request
  and the successful cancellation. Every other message without a percentage is left out. These
  announce work about to start or echo inputs: "Retrieving ...", "Parsing ...", "Parsed
  configuration file successfully!", the unit system, the path to write to, and "Writing
  timeseries to ...".
- The order of cancellation notices relative to measures still in flight is not modelled.
- `MerlinDataConverter.dataToTimeSeries` after the arrays are built is not modelled. This covers
  parsing the DSS pathname and units (its `DataSetException`) and building the container. The call
  refers to an undefined `template`, so the model ends with the arrays. Time zones are not
  modelled: an event's date is already an epoch-millisecond instant.
- `MerlinTimeSeriesDao.retrieveTimeSeries` maps a `RuntimeException` to `MerlinDataException`.
  This is not modelled.
- LocationDao.RetrieveLocationTemplate: compares office strings, where the source compares an
  `OfficeId` object with `getDbOfficeId()` (`MerlinLocationDao.java`, line 59). If that getter
  returns a `String`, `String.equals(OfficeId)` is always false, so the source's lookup never finds
  a template. `LookupByProfileName` instead proves success whenever a profile name matches. The
  model follows the evident intent: line 52 builds each template from the requested office id
  through `profileToLocationTemplate(ProfileWrapper, String)` (`MerlinDataConverter.java`, line 42).
- The access token (`MerlinDao.getAccessToken`) and its system properties are folded into each
  fetch's failure.
- ExchangeEngine.MerlinDataExchangeEngine.InitializeCachedMeasurements: runs the corrected fill,
  which skips an unparsed configuration. The source fails initialisation there instead
  (`MerlinDataExchangeEngine.java`, lines 349-351; first row of Findings). The as-written fold is
  `CacheAfterConfigsAsWritten`.
- ExchangeEngine.MerlinDataExchangeEngine.InitializeCache: uses the corrected fill, so an unparsed
  configuration is not an initialisation error, as it is in the source.
- ExchangeEngine.MerlinDataExchangeEngine.BeginExtract: runs after the corrected fill. With an
  unparsed configuration, the source runs no set and never finishes the listener.
- ExchangeEngine.MerlinDataExchangeEngine.ExtractFiles: the same. An unparsed configuration
  does not make the outcome `InitializationFailed`.
- ExchangeEngine.MerlinDataExchangeEngine.CacheMeasuresUnlessCancelled: the same corrected fill.
- ExchangeEngine.MerlinDataExchangeEngine.InitializeAndExtract: the same as `BeginExtract`.
- ExchangeEngine.MerlinDataExchangeEngine.RunExtract: the same, through `ExtractFiles`.
- ExportEngine.RunCsvExport: built on the corrected collection. The source fails the export when
  one template's measures cannot be fetched (third row of Findings); that behaviour is
  `RunCsvExportAsWritten`.
- ExportEngine.RunExport: dispatches CSV to the corrected `RunCsvExport`, not to
  `RunCsvExportAsWritten`.
- ExportEngine.CollectTemplateMeasureData: the corrected collection appends to the empty list of a
  failed fetch. In the source `Collections.emptyList()` is immutable.
- ExchangeEngine.MerlinDataExchangeEngine.ExchangeData: states where writes go and bounds their
  number and the tracker's progress. It does not state the exact sequence of writes, because each
  measure's outcome depends on the service and conversion oracles.
- MerlinDataConverter.MeasureToTimeSeriesId: the `DSSPathString` constructor's parse of the
  pathname, and the `DataSetIllegalArgumentException` it may throw, are abstracted to keeping the
  text, so the model never fails here and `SeriesStringRoundTrip` holds for every series string.
  The DSS library's pathname grammar is not part of this model.
- ExchangeEngine.MerlinDataExchangeEngine.ExchangeMeasure: states at most one write and at most two
  tracker steps, not which branch was taken, for the same reason.

## Findings

| source | as written | input that shows it | evidently intended | confidence | as-written member | corrected member |
|---|---|---|---|---|---|---|
| merlin-data-exchange/src/main/java/gov/usbr/wq/merlindataexchange/MerlinDataExchangeEngine.java:349-351 | `initializeCachedMeasurements` calls `getDataExchangeSets()` on every parsed configuration, including the null that an unparsable file yields; the resulting failure aborts initialisation, so no set of any configuration runs and the listener is never finished | two files, the second unparsable | skip unparsed configurations, as `extractConfiguration` does | not executed | ExchangeEngine.CacheAfterConfigsAsWritten, ExchangeEngine.UnparsedConfigurationFailsInitialization | ExchangeEngine.CacheAfterConfigs, ExchangeEngine.CacheConfigsCover |
| src/main/java/gov/usbr/wq/merlintohec/model/MerlinDataConverter.java:80-102 | the event index `i` is never incremented, so every event is written to slot 0 | events at times 1000 and 2000 give times [2000, 0] | slot k holds event k | not executed | MerlinDataConverter.DataToTimeSeriesAsWritten, MerlinDataConverter.AsWrittenLosesEvents | MerlinDataConverter.DataToTimeSeries, MerlinDataConverter.Converted |
| merlin-data-exchange/src/main/java/gov/usbr/wq/merlindataexchange/MerlinDataExportEngine.java:94-98 | when a template's measures cannot be fetched, `handle` stores the empty list into a map that is null on that path, so the whole export fails | one template whose measure fetch fails | record the template with no measures and continue | not executed | ExportEngine.CollectTemplateMeasureDataAsWritten, ExportEngine.SingleFailedTemplateFailsExport | ExportEngine.CollectTemplateMeasureData, ExportEngine.CollectedByDprId |
