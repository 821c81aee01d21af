/**
 * The folder-browser handlers of the main process: get-folders
 * (main.js:150-183), get-folder-images (main.js:185-220) and delete-folder
 * (main.js:222-230). Directory reads and `stat` calls are inputs that are
 * None when the call fails; the file tree is a set of paths.
 */
module FolderListing {
  import opened Strings
  import opened NodePath
  import opened Sorting

  /** The image test of both handlers: `.png`, `.jpg` or `.jpeg`, case-sensitively. */
  predicate IsImageName(f: string)
  {
    EndsWith(f, ".png") || EndsWith(f, ".jpg") || EndsWith(f, ".jpeg")
  }

  /**
   * The image files of a directory listing, in listing order: every image
   * occurrence is kept, so `|ImageFiles(files)|` is the number of images.
   */
  function ImageFiles(files: seq<string>): (r: seq<string>)
    ensures forall f :: f in r <==> f in files && IsImageName(f)
    ensures forall f :: multiset(r)[f] == if IsImageName(f) then multiset(files)[f] else 0
  {
    if files == [] then []
    else
      assert files == [files[0]] + files[1..];
      var rest := ImageFiles(files[1..]);
      if IsImageName(files[0]) then [files[0]] + rest else rest
  }

  /**
   * An entry of the root folder: its name, whether it is a directory, the
   * listing of that directory and its birth time (None when reading them
   * fails). The last two are read only for directories.
   */
  datatype RootEntry = RootEntry(name: string, isDirectory: bool, listing: Option<seq<string>>, birthtime: Option<int>)

  /** One row of the folder browser. */
  datatype FolderInfo = FolderInfo(name: string, path: string, imageCount: nat, created: int)

  function CreatedOf(f: FolderInfo): int
  {
    f.created
  }

  /** The row of a directory entry, None when its listing or its `stat` fails. */
  function FolderOf(rootFolder: string, e: RootEntry): (r: Option<FolderInfo>)
    ensures r.Some? <==> e.listing.Some? && e.birthtime.Some?
    ensures r.Some? ==> r.value.name == e.name && r.value.path == JoinPath(rootFolder, e.name)
                        && r.value.imageCount == |ImageFiles(e.listing.value)| && r.value.created == e.birthtime.value
  {
    if e.listing.None? || e.birthtime.None? then None
    else Some(FolderInfo(e.name, JoinPath(rootFolder, e.name), |ImageFiles(e.listing.value)|, e.birthtime.value))
  }

  /** The directory entries of a listing, in listing order. */
  function Directories(entries: seq<RootEntry>): (dirs: seq<RootEntry>)
    ensures forall e :: e in dirs <==> e in entries && e.isDirectory
    ensures |dirs| <= |entries|
  {
    if entries == [] then []
    else
      var init := entries[..|entries| - 1];
      var last := entries[|entries| - 1];
      assert entries == init + [last];
      Directories(init) + (if last.isDirectory then [last] else [])
  }

  /**
   * The rows of the directory entries, in listing order; None as soon as one
   * directory cannot be read. Files are skipped.
   */
  function DirectoryFolders(rootFolder: string, entries: seq<RootEntry>): (r: Option<seq<FolderInfo>>)
    ensures r.None? <==> exists e :: e in entries && e.isDirectory && FolderOf(rootFolder, e).None?
    ensures r.Some? ==> forall f :: f in r.value ==>
              exists e :: e in entries && e.isDirectory && FolderOf(rootFolder, e) == Some(f)
    ensures r.Some? ==> forall e :: e in entries && e.isDirectory ==> FolderOf(rootFolder, e).value in r.value
    ensures r.Some? ==> |r.value| == |Directories(entries)|
    ensures r.Some? ==> forall k :: 0 <= k < |r.value| ==> Some(r.value[k]) == FolderOf(rootFolder, Directories(entries)[k])
  {
    if entries == [] then Some([])
    else
      var init := entries[..|entries| - 1];
      var last := entries[|entries| - 1];
      assert entries == init + [last];
      match DirectoryFolders(rootFolder, init)
      case None => None
      case Some(rows) =>
        if !last.isDirectory then Some(rows)
        else
          match FolderOf(rootFolder, last)
          case None => None
          case Some(row) => Some(rows + [row])
  }

  /** Once a directory in a prefix fails, the whole listing fails. */
  lemma {:induction false} DirectoryFoldersFailurePersists(rootFolder: string, entries: seq<RootEntry>, i: nat)
    requires i <= |entries| && DirectoryFolders(rootFolder, entries[..i]).None?
    ensures DirectoryFolders(rootFolder, entries).None?
    decreases |entries| - i
  {
    if i < |entries| {
      assert entries[..i + 1][..i] == entries[..i];
      DirectoryFoldersFailurePersists(rootFolder, entries, i + 1);
    } else {
      assert entries[..i] == entries;
    }
  }

  /** Reading one more entry of the root folder. */
  lemma DirectoryFoldersStep(rootFolder: string, entries: seq<RootEntry>, i: nat)
    requires i < |entries|
    ensures DirectoryFolders(rootFolder, entries[..i + 1])
            == match DirectoryFolders(rootFolder, entries[..i])
               case None => None
               case Some(rows) =>
                 if !entries[i].isDirectory then Some(rows)
                 else if FolderOf(rootFolder, entries[i]).None? then None
                 else Some(rows + [FolderOf(rootFolder, entries[i]).value])
  {
    assert entries[..i + 1][..i] == entries[..i];
  }

  /**
   * get-folders: `entries` is the root folder's listing, None when creating
   * or reading the root fails. Any failure yields the empty list; otherwise
   * the rows of the directory entries, newest first.
   */
  method GetFolders(rootFolder: string, entries: Option<seq<RootEntry>>) returns (folders: seq<FolderInfo>)
    ensures entries.None? ==> folders == []
    ensures entries.Some? && DirectoryFolders(rootFolder, entries.value).None? ==> folders == []
    ensures entries.Some? && DirectoryFolders(rootFolder, entries.value).Some? ==>
              && multiset(folders) == multiset(DirectoryFolders(rootFolder, entries.value).value)
              && Descending(folders, CreatedOf)
              && |folders| == |Directories(entries.value)|
  {
    if entries.None? {
      return [];
    }
    var es := entries.value;
    var rows: seq<FolderInfo> := [];
    for i := 0 to |es|
      invariant DirectoryFolders(rootFolder, es[..i]) == Some(rows)
    {
      var entry := es[i];
      DirectoryFoldersStep(rootFolder, es, i);
      if entry.isDirectory {
        var row := FolderOf(rootFolder, entry);
        if row.None? {
          DirectoryFoldersFailurePersists(rootFolder, es, i + 1);
          return [];
        }
        rows := rows + [row.value];
      }
    }
    assert es[..|es|] == es;
    folders := SortDescending(rows, CreatedOf);
    assert |folders| == |multiset(folders)| == |multiset(rows)| == |rows|;
  }

  /** One image of a folder. */
  datatype ImageInfo = ImageInfo(name: string, path: string, created: int)

  function ImageCreatedOf(i: ImageInfo): int
  {
    i.created
  }

  /** What get-folder-images returns. */
  datatype FolderImages = FolderImages(images: seq<ImageInfo>, description: Option<string>)

  /** The entries of the image files, in order; None as soon as one `stat` fails. */
  function ImageInfos(folderPath: string, files: seq<string>, birthtimeOf: string -> Option<int>): (r: Option<seq<ImageInfo>>)
    ensures r.None? <==> exists f :: f in files && birthtimeOf(f).None?
    ensures r.Some? ==> |r.value| == |files|
                        && forall k :: 0 <= k < |files| ==>
                             r.value[k] == ImageInfo(files[k], JoinPath(folderPath, files[k]), birthtimeOf(files[k]).value)
  {
    if files == [] then Some([])
    else
      var init := files[..|files| - 1];
      var last := files[|files| - 1];
      assert files == init + [last];
      match ImageInfos(folderPath, init, birthtimeOf)
      case None => None
      case Some(infos) =>
        match birthtimeOf(last)
        case None => None
        case Some(t) => Some(infos + [ImageInfo(last, JoinPath(folderPath, last), t)])
  }

  lemma {:induction false} ImageInfosFailurePersists(folderPath: string, files: seq<string>,
                                                      birthtimeOf: string -> Option<int>, i: nat)
    requires i <= |files| && ImageInfos(folderPath, files[..i], birthtimeOf).None?
    ensures ImageInfos(folderPath, files, birthtimeOf).None?
    decreases |files| - i
  {
    if i < |files| {
      assert files[..i + 1][..i] == files[..i];
      ImageInfosFailurePersists(folderPath, files, birthtimeOf, i + 1);
    } else {
      assert files[..i] == files;
    }
  }

  /**
   * get-folder-images: `files` is the folder's listing (None when it cannot
   * be read), `birthtimeOf` the `stat` of each file and `description` the
   * contents of `description.txt` (None when it is absent or unreadable).
   * Any listing or `stat` failure yields no images and no description.
   */
  method GetFolderImages(folderPath: string, files: Option<seq<string>>, birthtimeOf: string -> Option<int>,
                         description: Option<string>)
    returns (result: FolderImages)
    ensures files.None? ==> result == FolderImages([], None)
    ensures files.Some? && ImageInfos(folderPath, ImageFiles(files.value), birthtimeOf).None? ==>
              result == FolderImages([], None)
    ensures files.Some? && ImageInfos(folderPath, ImageFiles(files.value), birthtimeOf).Some? ==>
              && multiset(result.images) == multiset(ImageInfos(folderPath, ImageFiles(files.value), birthtimeOf).value)
              && Descending(result.images, ImageCreatedOf)
              && result.description == description
  {
    if files.None? {
      return FolderImages([], None);
    }
    var imageFiles := ImageFiles(files.value);
    var images: seq<ImageInfo> := [];
    for i := 0 to |imageFiles|
      invariant ImageInfos(folderPath, imageFiles[..i], birthtimeOf) == Some(images)
    {
      var file := imageFiles[i];
      assert imageFiles[..i + 1] == imageFiles[..i] + [file];
      var stats := birthtimeOf(file);
      if stats.None? {
        ImageInfosFailurePersists(folderPath, imageFiles, birthtimeOf, i + 1);
        return FolderImages([], None);
      }
      images := images + [ImageInfo(file, JoinPath(folderPath, file), stats.value)];
    }
    assert imageFiles[..|imageFiles|] == imageFiles;
    result := FolderImages(SortDescending(images, ImageCreatedOf), description);
  }

  /** `p` is `dir` itself or lies below it. */
  predicate Within(p: string, dir: string)
  {
    p == dir || (|dir| < |p| && p[..|dir|] == dir && p[|dir|] == Separator)
  }

  /** delete-folder succeeds with the tree left, or rethrows the removal's error. */
  datatype DeleteResult = Deleted(remaining: set<string>) | Rethrown

  /**
   * delete-folder: `fs.rm(folderPath, {recursive: true, force: true})` over a
   * file tree given as its set of paths; `rmFails` is whether removing an
   * existing folder throws. With `force`, a folder that is not there is not
   * an error, so nothing can fail when the tree holds nothing within it.
   */
  function DeleteFolder(tree: set<string>, folderPath: string, rmFails: bool): (r: DeleteResult)
    ensures r.Rethrown? <==> rmFails && exists p :: p in tree && Within(p, folderPath)
    ensures r.Deleted? ==> forall p :: p in r.remaining <==> p in tree && !Within(p, folderPath)
  {
    if rmFails && exists p :: p in tree && Within(p, folderPath) then Rethrown
    else Deleted(set p | p in tree && !Within(p, folderPath))
  }

  /**
   * Once a deletion has succeeded, deleting the same folder again succeeds
   * whether or not the removal would fail, and changes nothing.
   */
  lemma DeleteFolderIdempotent(tree: set<string>, folderPath: string, firstFails: bool, secondFails: bool)
    requires DeleteFolder(tree, folderPath, firstFails).Deleted?
    ensures var once := DeleteFolder(tree, folderPath, firstFails).remaining;
            DeleteFolder(once, folderPath, secondFails) == Deleted(once)
  {
    var once := DeleteFolder(tree, folderPath, firstFails).remaining;
    assert (set p | p in once && !Within(p, folderPath)) == once;
  }
}
