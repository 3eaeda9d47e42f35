/** The `/backup` slash command: the request it sends to the backup service
    and the reply it builds from the service's result.

    The reply is modelled as an abstract summary: which branch it takes
    (completed or failed), its description, and its list of labelled fields.
    Colours, titles and emoji are presentation and are not modelled; the
    backup time is kept as the instant itself, since turning it into a
    localised date string is the job of a date library outside the model. */
module BackupCommand {
  import opened Wrappers
  import opened JsString
  import opened CollectionsOption

  /* ------------------------------------------------------------------ */
  /* Request                                                             */
  /* ------------------------------------------------------------------ */

  /** The options the backup service accepts. `collections == None` means
      "every collection". */
  datatype BackupOptions = BackupOptions(
    collections: Option<seq<string>>,
    createThread: bool,
    isManual: bool)

  /** The request for a manual backup, given the raw `collections` option
      (`None` when the user left it out). */
  function BackupRequest(param: Option<string>): (o: BackupOptions)
    ensures o.createThread && o.isManual
    ensures o.collections == ParseCollections(param, EcmaWhitespace)
    ensures o.collections.None? <==> param.None? || param == Some("")
    ensures o.collections.Some? ==>
              forall i :: 0 <= i < |o.collections.value| ==>
                IsCollectionName(o.collections.value[i], EcmaWhitespace)
  {
    BackupOptions(ParseCollections(param, EcmaWhitespace), true, true)
  }

  /* ------------------------------------------------------------------ */
  /* Result                                                              */
  /* ------------------------------------------------------------------ */

  /** The completion instant, in milliseconds since the epoch. */
  type Instant = int

  /** What the backup service returns. Its internal consistency (for
      instance "`success` implies an upload URL") is the service's business
      and is not assumed here: the reply must cope with every record. */
  datatype BackupResult = BackupResult(
    success: bool,
    collectionsProcessed: seq<string>,
    totalDocumentsProcessed: nat,
    timestamp: Instant,
    s3Url: Option<string>,
    threadId: Option<string>,
    error: Option<string>)

  /* ------------------------------------------------------------------ */
  /* Reply                                                               */
  /* ------------------------------------------------------------------ */

  datatype Branch = Completed | Failed

  datatype Label =
    | CollectionsProcessed
    | TotalDocuments
    | BackupTime
    | DownloadLink
    | DiscussionThread
    | PartialCollectionsProcessed

  /** A field's value: text, or an instant the front end shows as a
      localised date and time. */
  datatype FieldValue = Text(text: string) | LocalizedTime(at: Instant)

  datatype Field = Field(name: Label, value: FieldValue, inline: bool)

  datatype Summary = Summary(branch: Branch, description: string, fields: seq<Field>)

  const CompletedDescription: string := "Manual backup has been completed and uploaded to S3!"
  const FailedDescriptionPrefix: string := "Backup failed with error: "
  const NoneText: string := "None"
  const ListSeparator: string := ", "

  /** ECMAScript truthiness of an optional string: present and non-empty. */
  predicate Truthy(o: Option<string>) {
    o.Some? && o.value != ""
  }

  /** An optional string inside a template literal: a missing field is
      `undefined` and prints as "undefined". */
  function TemplateText(o: Option<string>): string {
    match o
    case Some(m) => m
    case None => "undefined"
  }

  /** The completed branch's list: the names joined with ", ", with "None"
      in place of an empty joined string, whatever list produced it. */
  function ProcessedText(names: seq<string>): string {
    var joined := Join(names, ListSeparator);
    if joined == "" then NoneText else joined
  }

  /** The failed branch's list: "None" for an empty list, and otherwise the
      names joined with ", ", even when that join is empty. */
  function PartialProcessedText(names: seq<string>): string {
    if |names| > 0 then Join(names, ListSeparator) else NoneText
  }

  function DownloadLinkText(url: string): string {
    "[Click here to download backup](" + url + ")"
  }

  /** A channel mention, which the chat client shows as a link to the thread. */
  function ThreadMention(id: string): string {
    "<#" + id + ">"
  }

  /** The first field with the given name, if any. */
  function Lookup(fields: seq<Field>, key: Label): Option<Field> {
    if |fields| == 0 then None
    else if fields[0].name == key then Some(fields[0])
    else Lookup(fields[1..], key)
  }

  lemma LookupCons(f: Field, rest: seq<Field>, key: Label)
    ensures Lookup([f] + rest, key) == if f.name == key then Some(f) else Lookup(rest, key)
  {
    assert ([f] + rest)[1..] == rest;
  }

  /** Where a label sits in the reply; the two lists never share a reply. */
  function Rank(key: Label): nat {
    match key
    case CollectionsProcessed => 0
    case PartialCollectionsProcessed => 0
    case TotalDocuments => 1
    case BackupTime => 2
    case DownloadLink => 3
    case DiscussionThread => 4
  }

  /** Fields appear in the fixed order of their labels, so none twice. */
  predicate InLabelOrder(fields: seq<Field>) {
    forall i, j :: 0 <= i < j < |fields| ==> Rank(fields[i].name) < Rank(fields[j].name)
  }

  /** What the reply shows under each label, stated label by label: the
      reference the reply's list of fields is checked against. */
  function Expected(result: BackupResult, key: Label): Option<Field> {
    match key
    case CollectionsProcessed =>
      if result.success
      then Some(Field(CollectionsProcessed, Text(ProcessedText(result.collectionsProcessed)), true))
      else None
    case TotalDocuments =>
      if result.success
      then Some(Field(TotalDocuments, Text(NumberToString(result.totalDocumentsProcessed)), true))
      else None
    case BackupTime =>
      if result.success then Some(Field(BackupTime, LocalizedTime(result.timestamp), false))
      else None
    case DownloadLink =>
      if result.success && Truthy(result.s3Url)
      then Some(Field(DownloadLink, Text(DownloadLinkText(result.s3Url.value)), false))
      else None
    case DiscussionThread =>
      if result.success && Truthy(result.threadId)
      then Some(Field(DiscussionThread, Text(ThreadMention(result.threadId.value)), true))
      else None
    case PartialCollectionsProcessed =>
      if result.success then None
      else Some(Field(PartialCollectionsProcessed, Text(PartialProcessedText(result.collectionsProcessed)), false))
  }

  /* The fields of the reply, one function per field as the command adds
     them. */

  function ProcessedField(result: BackupResult): Field {
    Field(CollectionsProcessed, Text(ProcessedText(result.collectionsProcessed)), true)
  }

  function DocumentsField(result: BackupResult): Field {
    Field(TotalDocuments, Text(NumberToString(result.totalDocumentsProcessed)), true)
  }

  function TimeField(result: BackupResult): Field {
    Field(BackupTime, LocalizedTime(result.timestamp), false)
  }

  /** The download link, added only when the URL is truthy. */
  function LinkFields(result: BackupResult): seq<Field> {
    if Truthy(result.s3Url)
    then [Field(DownloadLink, Text(DownloadLinkText(result.s3Url.value)), false)]
    else []
  }

  /** The thread mention, added only when the thread id is truthy. */
  function ThreadFields(result: BackupResult): seq<Field> {
    if Truthy(result.threadId)
    then [Field(DiscussionThread, Text(ThreadMention(result.threadId.value)), true)]
    else []
  }

  function PartialField(result: BackupResult): Field {
    Field(PartialCollectionsProcessed, Text(PartialProcessedText(result.collectionsProcessed)), false)
  }

  /** The reply for a result: the completed branch exactly when the result
      says so, the failed branch's description carrying the error, and the
      fields in label order. `SummarizeFields` states which fields. */
  function Summarize(result: BackupResult): (s: Summary)
    ensures s.branch == Completed <==> result.success
    ensures s.description ==
              if result.success then CompletedDescription
              else FailedDescriptionPrefix + TemplateText(result.error)
    ensures InLabelOrder(s.fields)
  {
    if result.success then
      var fields := [ProcessedField(result)] + ([DocumentsField(result)] + ([TimeField(result)]
                    + (LinkFields(result) + ThreadFields(result))));
      Summary(Completed, CompletedDescription, fields)
    else
      Summary(Failed, FailedDescriptionPrefix + TemplateText(result.error), [PartialField(result)])
  }

  /** Under every label the reply shows exactly the expected field: the
      lists of processed collections in their branch only, the count and
      time on success, the download link exactly on success with a truthy
      URL, the thread exactly on success with a truthy thread id. */
  lemma SummarizeFields(result: BackupResult)
    ensures forall key :: Lookup(Summarize(result).fields, key) == Expected(result, key)
  {
    forall key ensures Lookup(Summarize(result).fields, key) == Expected(result, key) {
      if result.success {
        var link, thread := LinkFields(result), ThreadFields(result);
        var tail := link + thread;
        LookupCons(ProcessedField(result), [DocumentsField(result)] + ([TimeField(result)] + tail), key);
        LookupCons(DocumentsField(result), [TimeField(result)] + tail, key);
        LookupCons(TimeField(result), tail, key);
        if |link| == 0 {
          assert tail == thread;
        } else {
          LookupCons(link[0], thread, key);
        }
        if |thread| > 0 {
          LookupCons(thread[0], [], key);
          assert thread == [thread[0]] + [];
        }
      } else {
        LookupCons(PartialField(result), [], key);
        assert [PartialField(result)] == [PartialField(result)] + [];
      }
    }
  }

  /* ------------------------------------------------------------------ */
  /* The two lists of processed collections                             */
  /* ------------------------------------------------------------------ */

  /** Both branches show the names joined with ", ", or "None" for an empty
      list, on every list but one: the list holding a single empty name. */
  lemma ProcessedTextsAgree(names: seq<string>)
    requires names != [""]
    ensures ProcessedText(names) == PartialProcessedText(names)
    ensures ProcessedText(names) == if names == [] then NoneText else Join(names, ListSeparator)
  {
    JoinEmptyIff(names, ListSeparator);
  }

  /** On that one list the branches differ: the join is empty, which the
      completed branch replaces by "None" while the failed branch, testing
      the length of the list instead, shows it as it is. */
  lemma ProcessedTextsDifferOnEmptyName()
    ensures ProcessedText([""]) == NoneText
    ensures PartialProcessedText([""]) == ""
  {
    JoinEmptyIff([""], ListSeparator);
  }

  /** The list a reply shows, typed back into the `collections` option,
      asks for exactly the collections it lists, in the same order. */
  lemma ProcessedTextParsesBack(names: seq<string>)
    requires |names| > 0
    requires forall i :: 0 <= i < |names| ==> IsCollectionName(names[i], EcmaWhitespace)
    ensures ParseCollections(Some(ProcessedText(names)), EcmaWhitespace) == Some(names)
    ensures ParseCollections(Some(PartialProcessedText(names)), EcmaWhitespace) == Some(names)
  {
    assert IsPadding(" ", EcmaWhitespace);
    assert ListSeparator == [Separator] + " ";
    ParseJoinRoundTrip(names, " ", EcmaWhitespace);
    JoinEmptyIff(names, ListSeparator);
    assert names != [""];
  }

  /* ------------------------------------------------------------------ */
  /* A worked run                                                        */
  /* ------------------------------------------------------------------ */

  /** The request for two collections carries their names in order. */
  lemma ExampleRequest()
    ensures BackupRequest(Some("users, events")) == BackupOptions(Some(["users", "events"]), true, true)
  {
    var names := ["users", "events"];
    assert Join(names, ListSeparator) == "users, events";
    assert IsCollectionName(names[0], EcmaWhitespace);
    assert IsCollectionName(names[1], EcmaWhitespace);
    ProcessedTextParsesBack(names);
  }

  lemma NumberExample()
    ensures NumberToString(260) == "260"
  {
    assert NumberToString(2) == "2";
    assert NumberToString(26) == NumberToString(2) + "6";
    assert NumberToString(260) == NumberToString(26) + "0";
  }

  /** A completed run over two collections with a link and a thread shows
      all five fields, in order. */
  lemma ExampleCompletedReply(at: Instant, url: string, thread: string)
    requires url != "" && thread != ""
    ensures Summarize(BackupResult(true, ["users", "events"], 260, at, Some(url), Some(thread), None)).fields
         == [Field(CollectionsProcessed, Text("users, events"), true),
             Field(TotalDocuments, Text("260"), true),
             Field(BackupTime, LocalizedTime(at), false),
             Field(DownloadLink, Text(DownloadLinkText(url)), false),
             Field(DiscussionThread, Text(ThreadMention(thread)), true)]
  {
    var r := BackupResult(true, ["users", "events"], 260, at, Some(url), Some(thread), None);
    assert Join(["users", "events"], ListSeparator) == "users, events";
    NumberExample();
    var a, b, c := ProcessedField(r), DocumentsField(r), TimeField(r);
    var d, e := LinkFields(r)[0], ThreadFields(r)[0];
    assert a == Field(CollectionsProcessed, Text("users, events"), true);
    assert b == Field(TotalDocuments, Text("260"), true);
    assert Summarize(r).fields == [a] + ([b] + ([c] + ([d] + [e])));
    assert [a] + ([b] + ([c] + ([d] + [e]))) == [a, b, c, d, e];
  }

  /** A run that failed before processing anything: the failed branch with
      the error in its description, "None" as the list, and no link or
      thread even when the record carries them. */
  lemma ExampleFailedRun(at: Instant, error: string)
    ensures Summarize(BackupResult(false, [], 0, at, Some("obj://x"), Some("abc123"), Some(error)))
         == Summary(Failed, "Backup failed with error: " + error,
                    [Field(PartialCollectionsProcessed, Text("None"), false)])
  {
  }
}
