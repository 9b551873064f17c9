/**
 `FileRepository.get_pictures`: every `.jpg` file under the root, then every
 `.jpeg` file, as pictures, kept when their date lies in the window.

 The directory tree is the sequence of its files in the order a recursive
 glob visits them. Each file carries the date its picture reports (the
 EXIF capture time, or the modification time when that cannot be read);
 reading either is outside the model.
 */
module Files {
  import opened DateTimes
  import opened Pictures

  /** A file below the repository root, with the date its picture reports. */
  datatype FileEntry = FileEntry(path: string, date: DateTime)

  /** The extensions globbed for, in globbing order. */
  const Extensions: seq<string> := ["jpg", "jpeg"]

  // Matched by the recursive glob pattern for `ext`: the name ends in `.ext`, case-sensitively.
  predicate HasExtension(f: FileEntry, ext: string) {
    EndsWith(f.path, "." + ext)
  }

  // `path.glob(...)` for one extension: the matching files in visiting order, as pictures.
  function Globbed(files: seq<FileEntry>, ext: string): seq<Picture> {
    if |files| == 0 then []
    else
      var f := files[|files| - 1];
      Globbed(files[..|files| - 1], ext) + (if HasExtension(f, ext) then [FilePicture(f.path, f.date)] else [])
  }

  /** A picture is globbed for `ext` exactly when it is made from a file with that extension. */
  lemma {:induction false} GlobbedMembers(files: seq<FileEntry>, ext: string)
    ensures |Globbed(files, ext)| <= |files|
    ensures forall p :: p in Globbed(files, ext) <==>
      exists f :: f in files && HasExtension(f, ext) && p == FilePicture(f.path, f.date)
  {
    if |files| > 0 {
      var init := files[..|files| - 1];
      GlobbedMembers(init, ext);
      assert files == init + [files[|files| - 1]];
    }
  }

  /** The list comprehension over both extensions: all `.jpg` pictures, then all `.jpeg` pictures. */
  function Candidates(files: seq<FileEntry>): seq<Picture> {
    Globbed(files, Extensions[0]) + Globbed(files, Extensions[1])
  }

  /** No file name ends in both `.jpg` and `.jpeg`, so no file is globbed twice. */
  lemma ExtensionsAreExclusive(f: FileEntry)
    ensures !(HasExtension(f, "jpg") && HasExtension(f, "jpeg"))
  {
    if HasExtension(f, "jpeg") {
      var n := |f.path|;
      assert f.path[n - 5..][1] == 'j' == f.path[n - 4];
      assert f.path[n - 4..][0] != '.';
    }
  }

  /** Each file yields at most one candidate. */
  lemma {:induction false} AtMostOneCandidatePerFile(files: seq<FileEntry>)
    ensures |Candidates(files)| <= |files|
  {
    if |files| > 0 {
      AtMostOneCandidatePerFile(files[..|files| - 1]);
      ExtensionsAreExclusive(files[|files| - 1]);
    }
  }

  /** `FileRepository.get_pictures(min_date, max_date)`. */
  function GetPictures(files: seq<FileEntry>, minDate: DateTime, maxDate: DateTime): (r: seq<Picture>)
    ensures |r| <= |files|
    ensures forall p :: p in r ==> p.FilePicture? && InRange(p.date, minDate, maxDate)
  {
    GlobbedMembers(files, Extensions[0]);
    GlobbedMembers(files, Extensions[1]);
    AtMostOneCandidatePerFile(files);
    InWindow(Candidates(files), minDate, maxDate)
  }

  /**
   The local fetch returns exactly the `.jpg` and `.jpeg` files dated inside
   `[minDate, maxDate)`, the `.jpg` ones first, each in visiting order.
   */
  lemma GetPicturesSelects(files: seq<FileEntry>, minDate: DateTime, maxDate: DateTime)
    ensures forall p :: p in GetPictures(files, minDate, maxDate) <==>
      exists f :: f in files && (HasExtension(f, "jpg") || HasExtension(f, "jpeg"))
        && InRange(f.date, minDate, maxDate) && p == FilePicture(f.path, f.date)
    ensures GetPictures(files, minDate, maxDate) ==
      InWindow(Globbed(files, "jpg"), minDate, maxDate) + InWindow(Globbed(files, "jpeg"), minDate, maxDate)
  {
    GlobbedMembers(files, "jpg");
    GlobbedMembers(files, "jpeg");
    InWindowAppend(Globbed(files, "jpg"), Globbed(files, "jpeg"), minDate, maxDate);
  }
}
