/** ImageItem: one file to thumbnail and where it is in its lifecycle. */
module Items {

  /** The lifecycle of an item; there is no failure state. */
  datatype State = Pending | Processing | Solved

  /** The parts of a System.IO.FileInfo the program reads. */
  datatype FileInfo = FileInfo(fullName: string, name: string, lastWriteTime: int)

  class ImageItem {
    var file: FileInfo
    var state: State

    constructor (file: FileInfo, state: State)
      ensures this.file == file && this.state == state
    {
      this.file := file;
      this.state := state;
    }

    /** The File setter; State is untouched. */
    method SetFile(f: FileInfo)
      modifies this
      ensures file == f && state == old(state)
    {
      file := f;
    }

    /** The State setter; File is untouched. */
    method SetState(s: State)
      modifies this
      ensures state == s && file == old(file)
    {
      state := s;
    }
  }
}
