/** The unit in which files are read and stored. */
module Lines {
  /** A line as `readline` returns it before end of file: never empty, terminator included. */
  type Line = s: string | s != [] witness "\n"
}
