/** `src/lib/hooks/use-backup.ts`: the backup file's shape, its validation,
    and the section-by-section merge into storage. The stored values are
    untyped in the source (`Record<string, any>`), so this module models them
    as parsed JSON values with JavaScript's truthiness and `Object.keys`. */
module Backup {
  import opened Types

  /** A value produced by `JSON.parse`. Object keys are unique, as `JSON.parse`
      keeps the last of repeated keys. */
  datatype Json =
    | JNull
    | JBool(b: bool)
    | JNum(n: int)
    | JStr(s: string)
    | JArr(items: seq<Json>)
    | JObj(fields: map<string, Json>)

  /** JavaScript truthiness of a present value. */
  predicate Truthy(j: Json)
  {
    match j
    case JNull => false
    case JBool(b) => b
    case JNum(n) => n != 0
    case JStr(s) => s != ""
    case JArr(_) => true
    case JObj(_) => true
  }

  /** Why an import fails: the two validation errors the code throws, and the
      `TypeError` JavaScript raises when it reads a property of `null` or
      calls `Object.keys` on `null` or `undefined`. */
  datatype ImportError = InvalidBackupFormat | InvalidLinksData | TypeError

  /** The outcome of reading a property: `undefined` is `Ok(None)`. */
  datatype Read = Ok(value: Option<Json>) | Throws

  /** `j.key` on a present value: `null` throws, an object yields its field,
      and any other value has no such own data property. */
  function GetField(j: Json, key: string): Read
  {
    match j
    case JNull => Throws
    case JObj(fields) => if key in fields then Ok(Some(fields[key])) else Ok(None)
    case _ => Ok(None)
  }

  /** `Object.keys(v).length`, or `None` where `Object.keys` throws
      (`undefined` and `null`). */
  function KeyCount(v: Option<Json>): Option<nat>
  {
    match v
    case None => None
    case Some(JNull) => None
    case Some(JBool(_)) => Some(0)
    case Some(JNum(_)) => Some(0)
    case Some(JStr(s)) => Some(|s|)
    case Some(JArr(items)) => Some(|items|)
    case Some(JObj(fields)) => Some(|fields|)
  }

  /** The four storage keys a backup covers; `None` is an absent key. */
  datatype Sections = Sections(
    links: Option<Json>,
    categories: Option<Json>,
    archiveSettings: Option<Json>,
    trashSettings: Option<Json>)

  /** `stored || fallback`. */
  function OrDefault(v: Option<Json>, fallback: Json): (r: Json)
    ensures v.Some? && Truthy(v.value) ==> r == v.value
    ensures !(v.Some? && Truthy(v.value)) ==> r == fallback
  {
    if v.Some? && Truthy(v.value) then v.value else fallback
  }

  const EmptyArray: Json := JArr([])
  const EmptyObject: Json := JObj(map[])
  const BACKUP_VERSION: string := "1.0.0"

  /** The `data` record of an export: absent or falsy links becomes `[]`, any
      other absent or falsy section becomes `{}`. */
  function ExportSections(current: Sections): (r: Json)
    ensures r.JObj? && r.fields.Keys == {"links", "categories", "archiveSettings", "trashSettings"}
    // no exported section is falsy, so none of them trips the import's checks
    ensures forall k :: k in r.fields ==> Truthy(r.fields[k])
    ensures LinksAreArray(current) ==> r.fields["links"].JArr?
  {
    JObj(map[
      "links" := OrDefault(current.links, EmptyArray),
      "categories" := OrDefault(current.categories, EmptyObject),
      "archiveSettings" := OrDefault(current.archiveSettings, EmptyObject),
      "trashSettings" := OrDefault(current.trashSettings, EmptyObject)])
  }

  /** The record `exportData` serialises, taken at time `now`. */
  function ExportData(current: Sections, now: int): (backup: Json)
    ensures backup.JObj? && "version" in backup.fields && backup.fields["version"] == JStr(BACKUP_VERSION)
    ensures backup.JObj? && "timestamp" in backup.fields && backup.fields["timestamp"] == JNum(now)
    // the data record: each section as stored, or its empty default
    ensures backup.JObj? && "data" in backup.fields && backup.fields["data"].JObj?
    ensures var data := backup.fields["data"].fields;
      && "links" in data && data["links"] == OrDefault(current.links, EmptyArray)
      && "categories" in data && data["categories"] == OrDefault(current.categories, EmptyObject)
      && "archiveSettings" in data && data["archiveSettings"] == OrDefault(current.archiveSettings, EmptyObject)
      && "trashSettings" in data && data["trashSettings"] == OrDefault(current.trashSettings, EmptyObject)
    // an absent section is exported as `[]` or `{}`
    ensures current.links.None? ==> backup.fields["data"].fields["links"] == EmptyArray
    ensures current.categories.None? ==> backup.fields["data"].fields["categories"] == EmptyObject
    ensures current.archiveSettings.None? ==> backup.fields["data"].fields["archiveSettings"] == EmptyObject
    ensures current.trashSettings.None? ==> backup.fields["data"].fields["trashSettings"] == EmptyObject
  {
    JObj(map[
      "version" := JStr(BACKUP_VERSION),
      "timestamp" := JNum(now),
      "data" := ExportSections(current)])
  }

  /** What `importData` writes: every key, or nothing with the error raised. */
  datatype ImportResult = Imported(written: Sections) | Rejected(error: ImportError)

  /** One section of `mergedData`: the backup's value when it has at least one
      key, otherwise the current value or the empty default. */
  function MergeSection(backup: Option<Json>, current: Option<Json>, fallback: Json): (r: Option<Json>)
    // `Object.keys` throws on exactly `undefined` and `null`
    ensures r.None? <==> backup.None? || backup == Some(JNull)
    ensures KeyCount(backup).Some? && KeyCount(backup).value > 0 ==> r == backup
    // a merged section is truthy unless it is the empty default
    ensures r.Some? ==> Truthy(r.value) || r.value == fallback
  {
    match KeyCount(backup)
    case None => None
    case Some(count) => Some(if count > 0 then backup.value else OrDefault(current, fallback))
  }

  /** The header check of `importData`: an object with a truthy `version`,
      `timestamp` and `data`. */
  predicate HasHeader(backup: Json)
  {
    && backup.JObj?
    && "version" in backup.fields && Truthy(backup.fields["version"])
    && "timestamp" in backup.fields && Truthy(backup.fields["timestamp"])
    && "data" in backup.fields && Truthy(backup.fields["data"])
  }

  /** `Array.isArray(backupData.data.links)`. */
  predicate HasLinksArray(backup: Json)
    requires HasHeader(backup)
  {
    var data := backup.fields["data"];
    data.JObj? && "links" in data.fields && data.fields["links"].JArr?
  }

  /** `backupData.data[key]` is neither `undefined` nor `null`, so
      `Object.keys` accepts it. */
  predicate SectionPresent(backup: Json, key: string)
    requires HasHeader(backup) && HasLinksArray(backup)
  {
    var data := backup.fields["data"].fields;
    key in data && !data[key].JNull?
  }

  /** All three object-valued sections can be read by `Object.keys`. */
  predicate SectionsPresent(backup: Json)
    requires HasHeader(backup) && HasLinksArray(backup)
  {
    SectionPresent(backup, "categories") && SectionPresent(backup, "archiveSettings")
    && SectionPresent(backup, "trashSettings")
  }

  /** `importData` on the parsed file `backup`, against the current storage. */
  function ImportData(backup: Json, current: Sections): (r: ImportResult)
    // a well-formed backup is imported, and every other one is rejected with its error
    ensures r.Imported? <==> HasHeader(backup) && HasLinksArray(backup) && SectionsPresent(backup)
    ensures backup.JNull? ==> r == Rejected(TypeError)
    ensures !backup.JNull? && !HasHeader(backup) ==> r == Rejected(InvalidBackupFormat)
    ensures HasHeader(backup) && !HasLinksArray(backup) ==> r == Rejected(InvalidLinksData)
    ensures HasHeader(backup) && HasLinksArray(backup) && !SectionsPresent(backup) ==> r == Rejected(TypeError)
    // the shapes that are rejected
    ensures backup.JObj? && !("version" in backup.fields && Truthy(backup.fields["version"])) ==> r == Rejected(InvalidBackupFormat)
    ensures backup.JObj? && !("timestamp" in backup.fields && Truthy(backup.fields["timestamp"])) ==> r == Rejected(InvalidBackupFormat)
    ensures backup.JObj? && !("data" in backup.fields && Truthy(backup.fields["data"])) ==> r == Rejected(InvalidBackupFormat)
    // a successful import has a valid header and an array of links
    ensures r.Imported? ==> && backup.JObj?
                            && "version" in backup.fields && Truthy(backup.fields["version"])
                            && "timestamp" in backup.fields && Truthy(backup.fields["timestamp"])
                            && "data" in backup.fields && backup.fields["data"].JObj?
                            && "links" in backup.fields["data"].fields
                            && backup.fields["data"].fields["links"].JArr?
    // each section is decided from that section alone
    ensures r.Imported? ==>
      var data := backup.fields["data"].fields;
      var links := data["links"];
      && r.written.links == Some(if |links.items| > 0 then links else OrDefault(current.links, EmptyArray))
      && r.written.categories == MergeSection(Field(data, "categories"), current.categories, EmptyObject)
      && r.written.archiveSettings == MergeSection(Field(data, "archiveSettings"), current.archiveSettings, EmptyObject)
      && r.written.trashSettings == MergeSection(Field(data, "trashSettings"), current.trashSettings, EmptyObject)
      && r.written.categories.Some? && r.written.archiveSettings.Some? && r.written.trashSettings.Some?
  {
    match GetField(backup, "version")
    case Throws => Rejected(TypeError)
    case Ok(version) =>
      var timestamp := GetField(backup, "timestamp").value;
      var data := GetField(backup, "data").value;
      if !(version.Some? && Truthy(version.value)) || !(timestamp.Some? && Truthy(timestamp.value))
         || !(data.Some? && Truthy(data.value)) then
        Rejected(InvalidBackupFormat)
      else
        match GetField(data.value, "links")
        case Throws => Rejected(TypeError)
        case Ok(links) =>
          if !(links.Some? && links.value.JArr?) then Rejected(InvalidLinksData)
          else
            var mergedLinks := if |links.value.items| > 0 then links.value else OrDefault(current.links, EmptyArray);
            var categories := MergeSection(GetField(data.value, "categories").value, current.categories, EmptyObject);
            var archiveSettings := MergeSection(GetField(data.value, "archiveSettings").value, current.archiveSettings, EmptyObject);
            var trashSettings := MergeSection(GetField(data.value, "trashSettings").value, current.trashSettings, EmptyObject);
            if categories.None? || archiveSettings.None? || trashSettings.None? then Rejected(TypeError)
            else Imported(Sections(Some(mergedLinks), categories, archiveSettings, trashSettings))
  }

  /** `data[key]` on an object's fields. */
  function Field(fields: map<string, Json>, key: string): Option<Json>
  {
    if key in fields then Some(fields[key]) else None
  }

  /** A non-empty links array in the backup replaces the stored links wholesale. */
  lemma NonEmptyBackupLinksWin(backup: Json, current: Sections)
    requires ImportData(backup, current).Imported?
    requires |backup.fields["data"].fields["links"].items| > 0
    ensures ImportData(backup, current).written.links == Some(backup.fields["data"].fields["links"])
  {
  }

  /** An empty backup section keeps what is stored, or writes the empty default
      where nothing truthy is stored. */
  lemma EmptySectionKeepsCurrent(backup: Option<Json>, current: Option<Json>, fallback: Json)
    requires KeyCount(backup) == Some(0)
    ensures MergeSection(backup, current, fallback) ==
      Some(if current.Some? && Truthy(current.value) then current.value else fallback)
  {
  }

  /** The storage as an export sees it: every absent or falsy section replaced
      by its empty default. */
  function Normalized(s: Sections): Sections
  {
    Sections(
      Some(OrDefault(s.links, EmptyArray)),
      Some(OrDefault(s.categories, EmptyObject)),
      Some(OrDefault(s.archiveSettings, EmptyObject)),
      Some(OrDefault(s.trashSettings, EmptyObject)))
  }

  /** Stored links are an array whenever they are present and truthy, which is
      what every writer of the key stores. */
  predicate LinksAreArray(s: Sections)
  {
    s.links.Some? && Truthy(s.links.value) ==> s.links.value.JArr?
  }

  /** Importing a fresh export back into the same storage changes nothing, up to
      absent sections becoming their empty defaults. The export must be stamped
      with a real (non-zero) clock reading, for a zero timestamp is rejected. */
  lemma ExportImportRoundTrip(current: Sections, now: int)
    requires now != 0 && LinksAreArray(current)
    ensures ImportData(ExportData(current, now), current) == Imported(Normalized(current))
  {
    var backup := ExportData(current, now);
    var data := ExportSections(current);
    assert backup.fields["data"] == data;
    assert Field(data.fields, "categories") == Some(OrDefault(current.categories, EmptyObject));
    assert Field(data.fields, "archiveSettings") == Some(OrDefault(current.archiveSettings, EmptyObject));
    assert Field(data.fields, "trashSettings") == Some(OrDefault(current.trashSettings, EmptyObject));
  }

  /** Importing an export into empty storage reproduces the exported links. */
  lemma ExportImportIntoEmpty(current: Sections, now: int)
    requires now != 0 && LinksAreArray(current)
    ensures var r := ImportData(ExportData(current, now), Sections(None, None, None, None));
      r.Imported? && r.written.links == Some(OrDefault(current.links, EmptyArray))
  {
    var backup := ExportData(current, now);
    assert backup.fields["data"] == ExportSections(current);
  }
}
