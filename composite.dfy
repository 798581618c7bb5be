/** concate_page (imgProAPP/views.py:209-216): the front image on top of the
    back image, and the path the composite is written to. Images are reduced
    to their dimensions; reading, resizing and writing pixels is not
    modelled. */
module Composite {
  import opened Wrappers
  import opened Text
  import Models

  /** The shape of a decoded image, as (columns, rows). */
  datatype Dims = Dims(width: nat, height: nat)

  /** `cv2.resize(img, (width, height))`: the image takes the given size
      whatever its own. */
  function Resize(img: Dims, width: nat, height: nat): Dims {
    Dims(width, height)
  }

  /** `np.concatenate((top, bottom))` along the rows. */
  function StackRows(top: Dims, bottom: Dims): Dims
    requires top.width == bottom.width
  {
    Dims(top.width, top.height + bottom.height)
  }

  /** `img_path1.split(".")[0] + "_" + img_path2.split(os.sep)[-1]`. */
  function CompositePath(path1: string, path2: string): string {
    First(path1, '.') + "_" + Last(path2, '/')
  }

  /** What the file system offers concate_page: the files `cv2.imread` can
      read, with their dimensions, and the file extensions `cv2.imwrite` has
      an encoder for. */
  datatype Media = Media(readable: map<string, Dims>, encoders: set<string>)

  /** `cv2.imwrite` finds an encoder for the path: it has a '.', and what
      follows the last one is a known extension. */
  predicate Writable(path: string, encoders: set<string>) {
    LastIndexOf(path, '.') >= 0 && Last(path, '.') in encoders
  }

  /** concate_page. On a path `cv2.imread` cannot read it returns None and
      the resize raises; on an output path without a known extension
      `cv2.imwrite` raises. The result is the output path and the
      composite's dimensions. */
  function ConcatePage(path1: string, path2: string, media: Media): Outcome<(string, Dims)> {
    if path1 !in media.readable || path2 !in media.readable then Raised
    else
      var pageA := media.readable[path1];
      var pageB := Resize(media.readable[path2], pageA.width, pageA.height);
      var path := CompositePath(path1, path2);
      if !Writable(path, media.encoders) then Raised
      else Ok((path, StackRows(pageA, pageB)))
  }

  /** The composite is as wide as the front and as tall as the front plus the
      back, the back having been resized to the front's size: twice the
      front's height. It fails exactly when one of the files cannot be read
      or the output path has no extension OpenCV can write. */
  lemma ConcatePageGeometry(path1: string, path2: string, media: Media)
    ensures ConcatePage(path1, path2, media).Ok? <==>
              path1 in media.readable && path2 in media.readable &&
              Writable(CompositePath(path1, path2), media.encoders)
    ensures ConcatePage(path1, path2, media).Ok? ==>
              var d := ConcatePage(path1, path2, media).value.1;
              d.width == media.readable[path1].width && d.height == 2 * media.readable[path1].height
    ensures ConcatePage(path1, path2, media).Ok? ==>
              ConcatePage(path1, path2, media).value.0 == CompositePath(path1, path2)
  {
  }

  /** The output's extension is the back file's own: the front path is cut
      before its first '.', so a back stored without an extension (or with
      one OpenCV cannot encode) makes the write raise, whatever the front. */
  lemma ExtensionFromBack(path1: string, path2: string, encoders: set<string>)
    ensures Writable(CompositePath(path1, path2), encoders) <==> Writable(Last(path2, '/'), encoders)
  {
    var head := First(path1, '.') + "_";
    assert '.' !in head by {
      FirstIsStem(path1, '.');
    }
    assert CompositePath(path1, path2) == head + Last(path2, '/');
    PrependFree(head, Last(path2, '/'), '.');
  }

  /** The back image's own size never shows in the composite. */
  lemma BackSizeIrrelevant(path1: string, path2: string, media: Media, back: Dims)
    requires path1 != path2 && path1 in media.readable && path2 in media.readable
    ensures ConcatePage(path1, path2, media.(readable := media.readable[path2 := back])) ==
            ConcatePage(path1, path2, media)
  {
  }

  /** The composite's file name (`page_name`) is the front path's last
      component cut at the path's first '.', an '_', and the back's file
      name. */
  lemma CompositeName(path1: string, path2: string)
    ensures Last(CompositePath(path1, path2), '/') == Last(First(path1, '.'), '/') + "_" + Last(path2, '/')
  {
    PrefixAndLast(path2, '/');
    LastOfJoined(First(path1, '.'), Last(path2, '/'));
  }

  lemma LastOfJoined(head: string, name: string)
    requires '/' !in name
    ensures Last(head + "_" + name, '/') == Last(head, '/') + "_" + name
  {
    assert Last(head + "_", '/') == Last(head, '/') + "_" by {
      SplitAppend(head, "_", '/');
    }
    assert Last(head + "_" + name, '/') == Last(head + "_", '/') + name by {
      SplitAppend(head + "_", name, '/');
    }
  }

  /** For two uploads stored under a media root without '.', the composite
      of their stored images is named after the front's number and the back's
      last segment: "examA_0001.jpg" and "examA_0002.jpg" give
      "0001_0002.jpg". */
  lemma CompositeNameOfUploads(mediaRoot: string, front: string, back: string)
    requires '.' !in mediaRoot
    requires '/' !in front && First(front, '.') != ""
    requires '/' !in back && First(back, '.') != ""
    ensures Last(CompositePath(Models.StoredPath(mediaRoot, front), Models.StoredPath(mediaRoot, back)), '/')
            == First(Last(front, '_'), '.') + "_" + Last(back, '_')
  {
    var stem := First(front, '.');
    var seg := Last(front, '_');
    var dir := Models.PathJoin(mediaRoot, "img/" + stem);
    var path1 := Models.StoredPath(mediaRoot, front);
    var path2 := Models.StoredPath(mediaRoot, back);
    assert path1 == (dir + "/") + seg by {
      Models.StoredPathShape(mediaRoot, front);
    }
    assert '/' !in seg && '.' !in stem by {
      Models.UploadToComponents(front);
      FirstIsStem(front, '.');
    }
    assert '.' !in dir + "/" by {
      NoDotInStoredDir(mediaRoot, stem);
    }
    var cut := First(seg, '.');
    assert First(path1, '.') == (dir + "/") + cut by {
      FirstAfter(dir + "/", seg, '.');
    }
    assert '/' !in cut by {
      StemKeepsAbsentChar(seg, '.', '/');
    }
    assert Last(First(path1, '.'), '/') == cut by {
      LastAfterSeparator(dir, cut, '/');
    }
    assert Last(path2, '/') == Last(back, '_') by {
      Models.StoredBaseName(mediaRoot, back);
    }
    CompositeName(path1, path2);
  }

  /** The directory an upload is stored in has no '.' when the media root
      and the stem have none. */
  lemma NoDotInStoredDir(mediaRoot: string, stem: string)
    requires '.' !in mediaRoot && '.' !in stem
    ensures '.' !in Models.PathJoin(mediaRoot, "img/" + stem) + "/"
  {
    var rel := "img/" + stem;
    assert '.' !in rel;
    assert rel[0] == 'i';
  }

  /** Cutting at the first `c` cannot bring in a character the text lacks. */
  lemma StemKeepsAbsentChar(s: string, c: char, d: char)
    requires d !in s
    ensures d !in First(s, c)
  {
    FirstIsStem(s, c);
    var r := First(s, c);
    forall k | 0 <= k < |r| ensures r[k] != d {
      assert r[k] == s[k];
    }
  }
}
