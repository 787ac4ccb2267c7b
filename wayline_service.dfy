/** `WaylineService`: reads the template document out of a wayline archive
    and builds the `Wayline` (flight path, template type, drone and payload
    types) from it. */
module WaylineService {
  import opened Wrappers
  import opened KmzDocument
  import FlightRoute

  /** The cursor of a `ZipInputStream`: `getNextEntry` hands out the entries
      one by one, then null, or throws once a truncated archive runs out. */
  class ZipInputStream {
    const archive: Archive
    var position: nat

    ghost predicate Valid()
      reads this
    {
      position <= |archive.entries|
    }

    constructor (archive: Archive)
      ensures Valid()
      ensures this.archive == archive && position == 0
    {
      this.archive := archive;
      position := 0;
    }

    /** `getNextEntry()`: the next entry, null at the end, or an
        `IOException` at the end of a truncated archive. */
    method GetNextEntry() returns (r: Result<Option<ZipEntry>, ReadException>)
      requires Valid()
      modifies this
      ensures Valid()
      ensures old(position) < |archive.entries| ==>
        r == Success(Some(archive.entries[old(position)])) && position == old(position) + 1
      ensures old(position) == |archive.entries| ==>
        position == old(position) && r == (if archive.truncated then Failure(IOError) else Success(None))
    {
      if position < |archive.entries| {
        r := Success(Some(archive.entries[position]));
        position := position + 1;
      } else if archive.truncated {
        r := Failure(IOError);
      } else {
        r := Success(None);
      }
    }
  }

  /** The position of the first entry at or after `from` named `path`. */
  function FirstEntryNamed(entries: seq<ZipEntry>, path: string, from: nat): (r: Option<nat>)
    requires from <= |entries|
    ensures r.Some? ==> from <= r.value < |entries| && entries[r.value].name == path
    ensures r.Some? ==> forall j :: from <= j < r.value ==> entries[j].name != path
    ensures r.None? ==> forall j :: from <= j < |entries| ==> entries[j].name != path
    decreases |entries| - from
  {
    if from == |entries| then None
    else if entries[from].name == path then Some(from)
    else FirstEntryNamed(entries, path, from + 1)
  }

  /** What `findWaylineTemplateFile` makes of a stream at `from`: the
      position of the template entry; otherwise the `NullPointerException`
      of `Optional.of(null)` once the entries run out, or the `IOException`
      of a truncated archive. Never `FileNotFoundException`. */
  function TemplateEntry(archive: Archive, path: string, from: nat): (r: Result<nat, ReadException>)
    requires from <= |archive.entries|
    ensures r.Success? ==> r.value < |archive.entries| && archive.entries[r.value].name == path
    ensures r.Failure? ==> r.error == (if archive.truncated then IOError else NullPointer)
    ensures r.Failure? <==> forall j :: from <= j < |archive.entries| ==> archive.entries[j].name != path
  {
    match FirstEntryNamed(archive.entries, path, from)
    case Some(i) => Success(i)
    case None => Failure(if archive.truncated then IOError else NullPointer)
  }

  /** `findWaylineTemplateFile(zipInputStream)`: reads entries until one is
      named `path` and leaves the stream inside that entry. `nextEntry` is
      the `Optional` of the source; `Optional.of` of the null that ends the
      entries throws a `NullPointerException`, so the loop only ever leaves
      holding an entry and the closing `orElseThrow` never throws its
      `FileNotFoundException`. */
  method FindWaylineTemplateFile(zipInputStream: ZipInputStream, path: string)
    returns (r: Result<ZipEntry, ReadException>)
    requires zipInputStream.Valid()
    modifies zipInputStream
    ensures zipInputStream.Valid()
    ensures r != Failure(FileNotFound)
    ensures var expected := TemplateEntry(zipInputStream.archive, path, old(zipInputStream.position));
      && (expected.Success? ==>
            r == Success(zipInputStream.archive.entries[expected.value])
            && zipInputStream.position == expected.value + 1)
      && (expected.Failure? ==>
            r == Failure(expected.error) && zipInputStream.position == |zipInputStream.archive.entries|)
  {
    ghost var start := zipInputStream.position;
    var entries := zipInputStream.archive.entries;
    var next := zipInputStream.GetNextEntry();
    if next.Failure? {
      return Failure(next.error);
    }
    if next.value.None? {
      return Failure(NullPointer);
    }
    var nextEntry: Option<ZipEntry> := next.value;
    while nextEntry.None? || nextEntry.value.name != path
      invariant zipInputStream.Valid()
      invariant start < zipInputStream.position <= |entries|
      invariant nextEntry == Some(entries[zipInputStream.position - 1])
      invariant forall j :: start <= j < zipInputStream.position - 1 ==> entries[j].name != path
      decreases |entries| - zipInputStream.position
    {
      next := zipInputStream.GetNextEntry();
      if next.Failure? {
        return Failure(next.error);
      }
      if next.value.None? {
        return Failure(NullPointer);
      }
      nextEntry := next.value;
    }
    match nextEntry
    case Some(entry) =>
      return Success(entry);
    case None =>
      assert false;
      return Failure(FileNotFound);
  }

  /** The types the document names, once resolved. */
  datatype Header = Header(
    droneType: DroneType,
    payloadType: PayloadType,
    payloadSubType: PayloadSubType,
    templateType: TemplateType)

  /** The document names a drone, a payload and a first folder, their codes
      are in the tables, and the folder's template type is waypoint. */
  predicate HeaderResolvable(doc: KmlDocument, catalog: Catalog)
  {
    && doc.droneInfo.Some? && doc.droneInfo.value in catalog.droneTypes
    && doc.payloadInfo.Some? && doc.payloadInfo.value.code in catalog.payloadTypes
    && doc.payloadInfo.value.subCode in catalog.payloadSubTypes
    && doc.folders != [] && doc.folders[0].templateType in catalog.templateTypes
    && catalog.templateTypes[doc.folders[0].templateType] == Waypoint
  }

  /** The lookups and the template check of `readWaylineInputStream`: a
      missing drone-info, payload-info or folder node dereferences null, an
      unknown code fails its lookup, and an unknown template type or any
      template type but waypoint raises `WaylineReadException`. */
  function ResolveHeader(doc: KmlDocument, catalog: Catalog): (r: Result<Header, ReadException>)
    ensures r.Success? <==> HeaderResolvable(doc, catalog)
    ensures r.Success? ==> r.value.templateType == Waypoint
    ensures r.Success? ==>
      && doc.droneInfo.Some? && doc.droneInfo.value in catalog.droneTypes
      && catalog.droneTypes[doc.droneInfo.value] == r.value.droneType
      && doc.payloadInfo.Some? && doc.payloadInfo.value.code in catalog.payloadTypes
      && catalog.payloadTypes[doc.payloadInfo.value.code] == r.value.payloadType
      && doc.payloadInfo.value.subCode in catalog.payloadSubTypes
      && catalog.payloadSubTypes[doc.payloadInfo.value.subCode] == r.value.payloadSubType
      && doc.folders != [] && doc.folders[0].templateType in catalog.templateTypes
  {
    match doc.droneInfo
    case None => Failure(NullPointer)
    case Some(drone) =>
      if drone !in catalog.droneTypes then Failure(UnsupportedHardware)
      else match doc.payloadInfo
        case None => Failure(NullPointer)
        case Some(payload) =>
          if payload.code !in catalog.payloadTypes then Failure(UnsupportedHardware)
          else if payload.subCode !in catalog.payloadSubTypes then Failure(UnsupportedHardware)
          else if doc.folders == [] then Failure(NullPointer)
          else
            var templateText := doc.folders[0].templateType;
            if templateText !in catalog.templateTypes then Failure(WaylineRead(TemplateNotSupported))
            else if catalog.templateTypes[templateText] != Waypoint then Failure(WaylineRead(TemplateNotSupported))
            else Success(Header(
              catalog.droneTypes[drone],
              catalog.payloadTypes[payload.code],
              catalog.payloadSubTypes[payload.subCode],
              catalog.templateTypes[templateText]))
  }

  /** The body of the `try` in `readWaylineInputStream`, before anything is
      caught: the wayline built from the template entry, or the exception. */
  function ReadTemplate(archive: Archive, catalog: Catalog): Result<Wayline, ReadException>
  {
    var i :- TemplateEntry(archive, TemplatePath(catalog), 0);
    match archive.entries[i].body
    case Unparsable => Failure(DocumentError)
    case Parsed(doc) =>
      var header :- ResolveHeader(doc, catalog);
      var flightPath :- FlightRoute.Route(AllPlacemarks(doc.folders), catalog.parseDouble);
      Success(Wayline(flightPath, header.templateType, header.droneType, header.payloadType, header.payloadSubType))
  }

  /** The exceptions the `catch (IOException | DocumentException e)` clause
      of `readWaylineInputStream` catches. */
  predicate IsChecked(e: ReadException)
  {
    e == IOError || e == FileNotFound || e == DocumentError
  }

  /** `readWaylineInputStream`: an `IOException` (`FileNotFoundException`
      among them) or a `DocumentException`, including one from closing the
      ZIP stream, is logged and the method returns null (`None`); every other
      exception propagates. */
  function ReadWayline(archive: Archive, catalog: Catalog): Result<Option<Wayline>, ReadException>
  {
    match ReadTemplate(archive, catalog)
    case Failure(e) => if IsChecked(e) then Success(None) else Failure(e)
    case Success(w) => if archive.closeFails then Success(None) else Success(Some(w))
  }

  /** `readWaylineInputStream(waylineInputStream)` over a freshly opened
      ZIP stream. */
  method ReadWaylineInputStream(unzipFile: ZipInputStream, catalog: Catalog)
    returns (r: Result<Option<Wayline>, ReadException>)
    requires unzipFile.Valid() && unzipFile.position == 0
    modifies unzipFile
    ensures r == ReadWayline(unzipFile.archive, catalog)
    ensures var found := TemplateEntry(unzipFile.archive, TemplatePath(catalog), 0);
      unzipFile.position == if found.Success? then found.value + 1 else |unzipFile.archive.entries|
  {
    var read: Result<Wayline, ReadException>;
    var waylineFileEntry := FindWaylineTemplateFile(unzipFile, TemplatePath(catalog));
    if waylineFileEntry.Failure? {
      read := Failure(waylineFileEntry.error);
    } else {
      match waylineFileEntry.value.body
      case Unparsable =>
        read := Failure(DocumentError);
      case Parsed(document) =>
        var header := ResolveHeader(document, catalog);
        if header.Failure? {
          read := Failure(header.error);
        } else {
          var flightPathCoordinates :=
            FlightRoute.ReadFlightRoute(AllPlacemarks(document.folders), catalog.parseDouble);
          if flightPathCoordinates.Failure? {
            read := Failure(flightPathCoordinates.error);
          } else {
            var h := header.value;
            read := Success(Wayline(flightPathCoordinates.value, h.templateType,
                                    h.droneType, h.payloadType, h.payloadSubType));
          }
        }
    }
    assert read == ReadTemplate(unzipFile.archive, catalog);
    if read.Failure? {
      r := if IsChecked(read.error) then Success(None) else Failure(read.error);
    } else {
      r := if unzipFile.archive.closeFails then Success(None) else Success(Some(read.value));
    }
  }

  /** `getWayline`: reads the archive the file service hands out; when
      closing that stream afterwards throws an `IOException`, the result is
      replaced by a `WaylineReadException`. An exception from the read
      itself propagates (the close failure is then suppressed). */
  function WaylineOf(archive: Archive, sourceCloseFails: bool, catalog: Catalog)
    : (r: Result<Option<Wayline>, ReadException>)
    ensures ReadWayline(archive, catalog).Failure? ==> r == ReadWayline(archive, catalog)
    ensures ReadWayline(archive, catalog).Success? ==>
      r == if sourceCloseFails then Failure(WaylineRead(StreamClosed)) else ReadWayline(archive, catalog)
  {
    var read := ReadWayline(archive, catalog);
    if read.Success? && sourceCloseFails then Failure(WaylineRead(StreamClosed)) else read
  }

  method GetWayline(archive: Archive, sourceCloseFails: bool, catalog: Catalog)
    returns (r: Result<Option<Wayline>, ReadException>)
    ensures r == WaylineOf(archive, sourceCloseFails, catalog)
  {
    var unzipFile := new ZipInputStream(archive);
    r := ReadWaylineInputStream(unzipFile, catalog);
    if r.Success? && sourceCloseFails {
      r := Failure(WaylineRead(StreamClosed));
    }
  }

  /** A failure of `readPoint` is never a checked exception, so it is never
      swallowed into null. */
  lemma {:induction false} RouteFailureIsUnchecked(ps: seq<Placemark>, parseDouble: string -> Option<Double>)
    requires FlightRoute.Route(ps, parseDouble).Failure?
    ensures FlightRoute.Route(ps, parseDouble).error in {NullPointer, IndexOutOfBounds}
         || FlightRoute.Route(ps, parseDouble).error.NumberFormat?
  {
    FlightRoute.RouteOutcome(ps, parseDouble);
  }

  /** Without an entry named `FILE_DIR_FIRST/FILE_DIR_SECOND_TEMPLATE` the
      read fails with the `NullPointerException` of `Optional.of(null)`
      (a truncated archive: null), never with `FileNotFoundException`. */
  lemma MissingTemplate(archive: Archive, sourceCloseFails: bool, catalog: Catalog)
    requires forall j :: 0 <= j < |archive.entries| ==> archive.entries[j].name != TemplatePath(catalog)
    ensures !archive.truncated ==> WaylineOf(archive, sourceCloseFails, catalog) == Failure(NullPointer)
    ensures archive.truncated ==> ReadWayline(archive, catalog) == Success(None)
  {
  }

  /** `FileNotFoundException` is unreachable: `findWaylineTemplateFile` only
      leaves its loop holding a matching entry, and nothing later in the
      body throws it, so the catch clause never sees one. */
  lemma {:induction false} FileNotFoundUnreachable(archive: Archive, sourceCloseFails: bool, catalog: Catalog)
    ensures ReadTemplate(archive, catalog) != Failure(FileNotFound)
    ensures WaylineOf(archive, sourceCloseFails, catalog) != Failure(FileNotFound)
  {
    var path := TemplatePath(catalog);
    var t := TemplateEntry(archive, path, 0);
    if t.Success? {
      match archive.entries[t.value].body
      case Unparsable =>
      case Parsed(doc) =>
        if ResolveHeader(doc, catalog).Success? {
          var ps := AllPlacemarks(doc.folders);
          if FlightRoute.Route(ps, catalog.parseDouble).Failure? {
            RouteFailureIsUnchecked(ps, catalog.parseDouble);
          }
        }
    }
  }

  /** The template document read is that of the first entry with the
      template path: entries before it are skipped, later ones ignored. */
  lemma {:induction false} FirstTemplateEntryIsRead(archive: Archive, catalog: Catalog, i: nat, doc: KmlDocument)
    requires i < |archive.entries| && archive.entries[i] == ZipEntry(TemplatePath(catalog), Parsed(doc))
    requires forall j :: 0 <= j < i ==> archive.entries[j].name != TemplatePath(catalog)
    ensures ReadTemplate(archive, catalog)
      == ReadTemplate(Archive([archive.entries[i]], archive.truncated, archive.closeFails), catalog)
  {
    var path := TemplatePath(catalog);
    FirstEntryAt(archive.entries, path, 0, i);
  }

  lemma {:induction false} FirstEntryAt(entries: seq<ZipEntry>, path: string, from: nat, i: nat)
    requires from <= i < |entries| && entries[i].name == path
    requires forall j :: from <= j < i ==> entries[j].name != path
    ensures FirstEntryNamed(entries, path, from) == Some(i)
    decreases i - from
  {
    if from < i {
      FirstEntryAt(entries, path, from + 1, i);
    }
  }

  /** A template type the enumeration does not know, or any known one but
      waypoint, aborts the read with `WaylineReadException`. */
  lemma UnsupportedTemplateRejected(archive: Archive, catalog: Catalog, doc: KmlDocument)
    requires TemplateEntry(archive, TemplatePath(catalog), 0).Success?
    requires archive.entries[TemplateEntry(archive, TemplatePath(catalog), 0).value].body == Parsed(doc)
    requires doc.droneInfo.Some? && doc.droneInfo.value in catalog.droneTypes
    requires doc.payloadInfo.Some? && doc.payloadInfo.value.code in catalog.payloadTypes
    requires doc.payloadInfo.value.subCode in catalog.payloadSubTypes
    requires doc.folders != []
    requires doc.folders[0].templateType !in catalog.templateTypes
          || catalog.templateTypes[doc.folders[0].templateType] != Waypoint
    ensures ReadWayline(archive, catalog) == Failure(WaylineRead(TemplateNotSupported))
  {
  }

  /** All or nothing: a placemark that yields no point aborts the whole
      read with its exception; no wayline and no null is returned. */
  lemma PlacemarkFailureAbortsRead(archive: Archive, catalog: Catalog, doc: KmlDocument, k: nat)
    requires TemplateEntry(archive, TemplatePath(catalog), 0).Success?
    requires archive.entries[TemplateEntry(archive, TemplatePath(catalog), 0).value].body == Parsed(doc)
    requires ResolveHeader(doc, catalog).Success?
    requires k < |AllPlacemarks(doc.folders)|
    requires FlightRoute.ReadPoint(AllPlacemarks(doc.folders)[k], catalog.parseDouble).Failure?
    ensures ReadWayline(archive, catalog).Failure?
  {
    var ps := AllPlacemarks(doc.folders);
    FlightRoute.RouteSucceedsIff(ps, catalog.parseDouble);
    RouteFailureIsUnchecked(ps, catalog.parseDouble);
  }

  /** A well-formed waypoint archive is read: the template entry parses, its
      header resolves, every placemark yields a point and the ZIP stream
      closes, and then the wayline holds the route and the resolved types. */
  lemma {:induction false} WellFormedArchiveReads(archive: Archive, catalog: Catalog, doc: KmlDocument)
    requires TemplateEntry(archive, TemplatePath(catalog), 0).Success?
    requires archive.entries[TemplateEntry(archive, TemplatePath(catalog), 0).value].body == Parsed(doc)
    requires HeaderResolvable(doc, catalog)
    requires forall j :: 0 <= j < |AllPlacemarks(doc.folders)| ==>
      FlightRoute.ReadPoint(AllPlacemarks(doc.folders)[j], catalog.parseDouble).Success?
    requires !archive.closeFails
    ensures FlightRoute.Route(AllPlacemarks(doc.folders), catalog.parseDouble).Success?
    ensures ReadWayline(archive, catalog) == Success(Some(Wayline(
      FlightRoute.Route(AllPlacemarks(doc.folders), catalog.parseDouble).value,
      Waypoint,
      catalog.droneTypes[doc.droneInfo.value],
      catalog.payloadTypes[doc.payloadInfo.value.code],
      catalog.payloadSubTypes[doc.payloadInfo.value.subCode])))
  {
    FlightRoute.RouteSucceedsIff(AllPlacemarks(doc.folders), catalog.parseDouble);
  }

  /** What a successful read promises: the template entry parsed, the
      hardware codes resolved, the template is waypoint, every placemark of
      the document (of every folder) yielded a point, and the flight path
      holds one point per distinct index in ascending index order, each the
      last one given for its index. */
  lemma {:induction false} SuccessfulRead(archive: Archive, catalog: Catalog, w: Wayline)
    requires ReadWayline(archive, catalog) == Success(Some(w))
    ensures !archive.closeFails
    ensures TemplateEntry(archive, TemplatePath(catalog), 0).Success?
    ensures var entry := archive.entries[TemplateEntry(archive, TemplatePath(catalog), 0).value];
      && entry.body.Parsed?
      && ResolveHeader(entry.body.document, catalog)
           == Success(Header(w.droneType, w.payloadType, w.payloadSubType, w.templateType))
      && w.templateType == Waypoint
      && var ps := AllPlacemarks(entry.body.document.folders);
      && (forall j :: 0 <= j < |ps| ==> FlightRoute.ReadPoint(ps[j], catalog.parseDouble).Success?)
      && |w.flightPath| == |FlightRoute.Indices(ps)|
      && forall n :: 0 <= n < |w.flightPath| ==>
           FlightRoute.ReadPoint(ps[FlightRoute.LastPosition(ps, FlightRoute.RouteIndices(ps)[n])], catalog.parseDouble)
             == Success(w.flightPath[n])
  {
    var i := TemplateEntry(archive, TemplatePath(catalog), 0).value;
    var doc := archive.entries[i].body.document;
    var ps := AllPlacemarks(doc.folders);
    FlightRoute.RouteSucceedsIff(ps, catalog.parseDouble);
    FlightRoute.RouteShape(ps, catalog.parseDouble);
  }

  /** The placemark query is document-wide: the points of every folder,
      not only the first one's, enter the flight path. */
  lemma {:induction false} EveryFolderContributes(folders: seq<Folder>, f: nat, p: Placemark)
    requires f < |folders| && p in folders[f].placemarks
    ensures p.index in FlightRoute.Indices(AllPlacemarks(folders))
  {
    assert folders[f] in folders;
  }
}
