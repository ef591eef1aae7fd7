/** `IdGenerator`: one id-generation worker of the corpus analyser, numbering
    the files of its part of the listing from its starting id into the
    shared name-to-id table. Whether a file is a valid document is a
    parameter; a check that throws leaves the file out. */
module IdGenerator {
  import opened Wrappers
  import opened DocIds

  /** The files `generateDocid` may number: not a directory, and judged a
      valid document (a check that throws is caught, and the file
      skipped). */
  function Admitted(valid: FileEntry -> Result<bool>): FileEntry -> bool {
    (f: FileEntry) => !f.isDirectory && valid(f) == Ok(true)
  }

  class IdGenerator {
    const filelist: seq<FileEntry>
    const docidByFilename: DocIdTable
    var docid: int
    const threadId: int
    const numFilesTotal: int

    constructor (filelist: seq<FileEntry>, docidByFilename: DocIdTable, docid: int, threadId: int, numFilesTotal: int)
      ensures this.filelist == filelist && this.docidByFilename == docidByFilename
      ensures this.docid == docid && this.threadId == threadId && this.numFilesTotal == numFilesTotal
    {
      this.filelist := filelist;
      this.docidByFilename := docidByFilename;
      this.docid := docid;
      this.threadId := threadId;
      this.numFilesTotal := numFilesTotal;
    }

    /** `generateDocid`: each admitted file whose name is not yet in the
        table gets the next id, in listing order. */
    method GenerateDocid(valid: FileEntry -> Result<bool>)
      modifies this, docidByFilename
      ensures docidByFilename.entries == Assign(old(docidByFilename.entries), filelist, old(docid), Admitted(valid)).ids
      ensures docid == Assign(old(docidByFilename.entries), filelist, old(docid), Admitted(valid)).next
    {
      ghost var m0 := docidByFilename.entries;
      ghost var d0 := docid;
      for k := 0 to |filelist|
        invariant Assigned(docidByFilename.entries, docid) == Assign(m0, filelist[..k], d0, Admitted(valid))
      {
        var f := filelist[k];
        AssignSnoc(m0, filelist[..k], f, d0, Admitted(valid));
        assert filelist[..k + 1] == filelist[..k] + [f];
        if !f.isDirectory {
          var currSource := f.name;
          var checked := valid(f);
          if currSource !in docidByFilename.entries && checked == Ok(true) {
            docidByFilename.entries := docidByFilename.entries[currSource := docid];
            docid := docid + 1;
          }
        }
      }
      assert filelist[..|filelist|] == filelist;
    }
  }

  /** What one worker does to the table: entries already there keep their
      ids; the names added are those of admitted files, each with its own
      id from `docid` up to, not including, `docid + |filelist|`. */
  lemma Generated(m: map<string, int>, filelist: seq<FileEntry>, docid: int, valid: FileEntry -> Result<bool>)
    ensures forall n :: n in m ==>
      (n in Assign(m, filelist, docid, Admitted(valid)).ids && Assign(m, filelist, docid, Admitted(valid)).ids[n] == m[n])
    ensures forall n :: n in Assign(m, filelist, docid, Admitted(valid)).ids && n !in m ==>
      (exists i :: 0 <= i < |filelist| && filelist[i].name == n && !filelist[i].isDirectory && valid(filelist[i]) == Ok(true))
    ensures forall n :: n in Assign(m, filelist, docid, Admitted(valid)).ids && n !in m ==>
      docid <= Assign(m, filelist, docid, Admitted(valid)).ids[n] < docid + |filelist|
    ensures forall a, b ::
      (a in Assign(m, filelist, docid, Admitted(valid)).ids && a !in m
       && b in Assign(m, filelist, docid, Admitted(valid)).ids && b !in m && a != b)
      ==> Assign(m, filelist, docid, Admitted(valid)).ids[a] != Assign(m, filelist, docid, Admitted(valid)).ids[b]
  {
    var r := Assign(m, filelist, docid, Admitted(valid));
    AssignKeeps(m, filelist, docid, Admitted(valid));
    AssignFresh(m, filelist, docid, Admitted(valid));
    forall n | n in r.ids && n !in m
      ensures exists i :: 0 <= i < |filelist| && filelist[i].name == n && !filelist[i].isDirectory && valid(filelist[i]) == Ok(true)
      ensures docid <= r.ids[n] < docid + |filelist|
    {
      assert n in EligibleNames(filelist, Admitted(valid));
      var i :| 0 <= i < |filelist| && Admitted(valid)(filelist[i]) && filelist[i].name == n;
      assert r.ids[n] in NewIds(m, r.ids);
    }
  }
}
