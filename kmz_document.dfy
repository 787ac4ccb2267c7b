/** The inputs and outputs of the flight-plan reader. The ZIP container, the
    XML parser and the number parser are libraries; they are represented by
    what they deliver: the archive's entries in stream order, the parsed
    template document as the few values the reader queries, and a parsing
    function for `double` text. */
module KmzDocument {
  import opened Wrappers

  /** A Java `double`, kept opaque as its IEEE 754 bit pattern. */
  datatype Double = Double(bits: bv64)

  /** An enum value and sub-enum value, as `numberValueOf(...).intValue()`
      reads them from a drone-info or payload-info node. */
  datatype CodePair = CodePair(code: int, subCode: int)

  /** One `Placemark` node: its `wpml:index` and `wpml:height` as read, and
      the text of its `Point/coordinates` child, absent when either of those
      two nodes is missing. */
  datatype Placemark = Placemark(index: int, height: Double, coordinates: Option<string>)

  /** A `Folder` node: the text of its `wpml:templateType` child (empty when
      missing) and its `Placemark` children in document order. Folders are
      not nested and every placemark sits in one, as in a WPML template. */
  datatype Folder = Folder(templateType: string, placemarks: seq<Placemark>)

  /** The parsed template document: its first drone-info and payload-info
      nodes, if any, and its folders in document order. */
  datatype KmlDocument = KmlDocument(
    droneInfo: Option<CodePair>,
    payloadInfo: Option<CodePair>,
    folders: seq<Folder>)

  /** What `SAXReader.read` makes of an entry: a document, or a
      `DocumentException`. */
  datatype EntryBody = Parsed(document: KmlDocument) | Unparsable

  datatype ZipEntry = ZipEntry(name: string, body: EntryBody)

  /** The archive as a `ZipInputStream` delivers it: its entries in order;
      whether `getNextEntry` throws an `IOException` after the last of them
      (a truncated or corrupt archive) instead of returning null; and whether
      closing the stream throws an `IOException`. */
  datatype Archive = Archive(entries: seq<ZipEntry>, truncated: bool, closeFails: bool)

  datatype DroneType = DroneType(name: string)
  datatype PayloadType = PayloadType(name: string)
  datatype PayloadSubType = PayloadSubType(name: string)
  datatype TemplateType = Waypoint | OtherTemplate(name: string)

  /** The fixed tables and constants the reader consults:
      `KmzFileProperties.FILE_DIR_FIRST` and `FILE_DIR_SECOND_TEMPLATE`, the
      lookups `DroneType.find`, `PayloadType.find`, `PayloadSubType.find` and
      `WaylineTemplateTypeEnum.find` as partial maps, and `Double.parseDouble`. */
  datatype Catalog = Catalog(
    fileDirFirst: string,
    fileDirSecondTemplate: string,
    droneTypes: map<CodePair, DroneType>,
    payloadTypes: map<int, PayloadType>,
    payloadSubTypes: map<int, PayloadSubType>,
    templateTypes: map<string, TemplateType>,
    parseDouble: string -> Option<Double>)

  /** A JTS `Coordinate(longitude, latitude, height)`. */
  datatype Coordinate = Coordinate(x: Double, y: Double, z: Double)

  /** The decoded flight plan. */
  datatype Wayline = Wayline(
    flightPath: seq<Coordinate>,
    templateType: TemplateType,
    droneType: DroneType,
    payloadType: PayloadType,
    payloadSubType: PayloadSubType)

  /** The exceptions the reader can meet. `IOError` and `DocumentError` are
      the checked ones `readWaylineInputStream` catches; `FileNotFound` is the
      one `findWaylineTemplateFile` names but never throws. */
  datatype ReadException =
    | NullPointer
    | IndexOutOfBounds
    | NumberFormat(text: string)
    | UnsupportedHardware
    | WaylineRead(message: string)
    | FileNotFound
    | IOError
    | DocumentError

  const TemplateNotSupported := "Template Type not supported."
  const StreamClosed := "Cannot read waylinefile since the inputstream has been closed already"

  /** `FILE_DIR_FIRST + "/" + FILE_DIR_SECOND_TEMPLATE`. */
  function TemplatePath(catalog: Catalog): string
  {
    catalog.fileDirFirst + "/" + catalog.fileDirSecondTemplate
  }

  /** What the document-wide Placemark query selects: the placemarks of every
      folder, in document order. */
  function AllPlacemarks(folders: seq<Folder>): (ps: seq<Placemark>)
    ensures forall f, p :: f in folders && p in f.placemarks ==> p in ps
    ensures forall p :: p in ps ==> exists f :: f in folders && p in f.placemarks
  {
    if folders == [] then []
    else folders[0].placemarks + AllPlacemarks(folders[1..])
  }
}
