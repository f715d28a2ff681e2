/** Files picked in a browser file input. */
module Files {

  /** A browser `File`, reduced to what the forms look at: its name and its MIME `type`. */
  datatype FileInfo = FileInfo(name: string, mimeType: string)
}
