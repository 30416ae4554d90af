/** The data holders of `no.hvl.dowhile.core`: the annotation a person supplies
    for a track, and an imported file bound to its parsed track. */
module Core {
  import opened JavaLang

  /** Crew type, crew size, crew number and searched area for one track. Every
      field has its own setter; nothing is validated (negative counts and
      `null` strings are stored as given). */
  class TrackInfo {
    var crewType: JString
    var crewCount: Int32
    var crewNumber: Int32
    var areaSearched: JString

    /** Empty strings and zero counts. */
    constructor ()
      ensures crewType == Ref("") && areaSearched == Ref("")
      ensures crewCount == 0 && crewNumber == 0
    {
      crewType := Ref("");
      crewNumber := 0;
      crewCount := 0;
      areaSearched := Ref("");
    }

    /** Stores each argument, unchanged, in the field of the same name. */
    constructor WithInfo(crewType: JString, crewCount: Int32, crewNumber: Int32, areaSearched: JString)
      ensures this.crewType == crewType && this.crewCount == crewCount
      ensures this.crewNumber == crewNumber && this.areaSearched == areaSearched
    {
      this.crewType := crewType;
      this.crewCount := crewCount;
      this.crewNumber := crewNumber;
      this.areaSearched := areaSearched;
    }

    method GetCrewType() returns (t: JString)
      ensures t == crewType
    {
      t := crewType;
    }

    method SetCrewType(crewType: JString)
      modifies this
      ensures this.crewType == crewType
      ensures crewCount == old(crewCount) && crewNumber == old(crewNumber)
      ensures areaSearched == old(areaSearched)
    {
      this.crewType := crewType;
    }

    method GetCrewCount() returns (n: Int32)
      ensures n == crewCount
    {
      n := crewCount;
    }

    method SetCrewCount(crewCount: Int32)
      modifies this
      ensures this.crewCount == crewCount
      ensures crewType == old(crewType) && crewNumber == old(crewNumber)
      ensures areaSearched == old(areaSearched)
    {
      this.crewCount := crewCount;
    }

    method GetCrewNumber() returns (n: Int32)
      ensures n == crewNumber
    {
      n := crewNumber;
    }

    method SetCrewNumber(groupNumber: Int32)
      modifies this
      ensures crewNumber == groupNumber
      ensures crewType == old(crewType) && crewCount == old(crewCount)
      ensures areaSearched == old(areaSearched)
    {
      crewNumber := groupNumber;
    }

    method GetAreaSearched() returns (a: JString)
      ensures a == areaSearched
    {
      a := areaSearched;
    }

    method SetAreaSearched(areaSearched: JString)
      modifies this
      ensures this.areaSearched == areaSearched
      ensures crewType == old(crewType) && crewCount == old(crewCount)
      ensures crewNumber == old(crewNumber)
    {
      this.areaSearched := areaSearched;
    }
  }

  /** A file on disk (`java.io.File`); only its identity matters here. */
  type File(==)

  /** A parsed GPS-exchange document (`com.hs.gpxparser.modal.GPX`); its
      contents belong to the parser and are not modelled. */
  type Gpx(==)

  /** An imported file bound to its original name, its hash and its parsed
      track. The file, name and hash have no setter, so they are constants
      fixed by the constructor; only the parsed track can be replaced. */
  class GpxFile {
    const file: File
    const rawFileName: JString
    const rawfileHash: JString
    var gpx: Gpx

    constructor (file: File, rawFileName: JString, rawFileHash: JString, gpx: Gpx)
      ensures this.file == file && this.rawFileName == rawFileName
      ensures this.rawfileHash == rawFileHash && this.gpx == gpx
    {
      this.file := file;
      this.rawFileName := rawFileName;
      this.rawfileHash := rawFileHash;
      this.gpx := gpx;
    }

    method GetFile() returns (f: File)
      ensures f == file
    {
      f := file;
    }

    method GetRawFileName() returns (name: JString)
      ensures name == rawFileName
    {
      name := rawFileName;
    }

    method GetRawfileHash() returns (hash: JString)
      ensures hash == rawfileHash
    {
      hash := rawfileHash;
    }

    method GetGpx() returns (g: Gpx)
      ensures g == gpx
    {
      g := gpx;
    }

    /** Replaces the parsed track; the file, name and hash cannot change. */
    method SetGpx(gpx: Gpx)
      modifies this`gpx
      ensures this.gpx == gpx
    {
      this.gpx := gpx;
    }
  }
}
