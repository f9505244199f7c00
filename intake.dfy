/**
  The file filter of `handleFiles` (script.js line 117): keep, in order,
  the files whose declared type starts with "image/".
 */
module Intake {
  import opened Text

  /** What the script reads of a file handle: its name, its declared MIME
      type and its size in bytes. */
  datatype FileInfo = FileInfo(name: string, mimeType: string, size: nat)

  /** The top-level media type of image files. */
  const ImageType: string := "image"

  const ImagePrefix: string := ImageType + "/"

  /** `file.type.startsWith('image/')`: the declared type has at least a
      media type and a subtype, and its media type is "image". */
  predicate IsImage(f: FileInfo)
    ensures IsImage(f) <==>
      var parts := Split(f.mimeType, '/');
      |parts| >= 2 && parts[0] == ImageType
  {
    ImagePrefixIsMediaType(f.mimeType);
    StartsWith(f.mimeType, ImagePrefix)
  }

  /** Starting with "image/" is having "image" as the first slash field,
      followed by a slash. */
  lemma ImagePrefixIsMediaType(s: string)
    ensures StartsWith(s, ImagePrefix) <==>
      var parts := Split(s, '/');
      |parts| >= 2 && parts[0] == ImageType
  {
    var parts := Split(s, '/');
    if StartsWith(s, ImagePrefix) {
      assert s == ImageType + ['/'] + s[|ImagePrefix|..];
      SplitAfter(ImageType, '/', s[|ImagePrefix|..]);
    }
    if |parts| >= 2 && parts[0] == ImageType {
      SplitHead(s, '/');
      assert s[..|ImagePrefix|] == ImageType + ['/'];
    }
  }

  /** `Array.from(files).filter(IsImage)`. */
  function FilterImages(files: seq<FileInfo>): (r: seq<FileInfo>)
    ensures |r| <= |files|
    ensures forall k :: 0 <= k < |r| ==> IsImage(r[k])
  {
    if files == [] then []
    else if IsImage(files[0]) then [files[0]] + FilterImages(files[1..])
    else FilterImages(files[1..])
  }

  /** `a` is `b` with some elements dropped, the rest in the same order. */
  predicate IsSubsequence<T(==)>(a: seq<T>, b: seq<T>)
    decreases |b|
  {
    if a == [] then true
    else if b == [] then false
    else (a[0] == b[0] && IsSubsequence(a[1..], b[1..])) || IsSubsequence(a, b[1..])
  }

  /** The kept files appear in their original relative order. */
  lemma {:induction false} FilterKeepsOrder(files: seq<FileInfo>)
    ensures IsSubsequence(FilterImages(files), files)
  {
    if files != [] {
      FilterKeepsOrder(files[1..]);
      var r := FilterImages(files);
      if IsImage(files[0]) {
        assert r[0] == files[0] && r[1..] == FilterImages(files[1..]);
      }
    }
  }

  /** Each file is kept as often as it occurs when it is an image, and
      never otherwise: with the order lemma, this pins the filter down. */
  lemma {:induction false} FilterCounts(files: seq<FileInfo>, f: FileInfo)
    ensures multiset(FilterImages(files))[f] ==
      if IsImage(f) then multiset(files)[f] else 0
  {
    if files != [] {
      FilterCounts(files[1..], f);
      assert files == [files[0]] + files[1..];
    }
  }

  /** A file is kept exactly when it is in the input and is an image. */
  lemma FilterMembership(files: seq<FileInfo>, f: FileInfo)
    ensures f in FilterImages(files) <==> f in files && IsImage(f)
  {
    FilterCounts(files, f);
    assert f in FilterImages(files) <==> multiset(FilterImages(files))[f] > 0;
    assert f in files <==> multiset(files)[f] > 0;
  }

  /** The filter comes out empty exactly when no file is an image. */
  lemma {:induction false} FilterEmpty(files: seq<FileInfo>)
    ensures FilterImages(files) == [] <==> forall k :: 0 <= k < |files| ==> !IsImage(files[k])
  {
    if files != [] {
      FilterEmpty(files[1..]);
      if !IsImage(files[0]) {
        forall k | 1 <= k < |files| ensures files[k] == files[1..][k - 1] { }
      }
    }
  }

  /** Filtering twice changes nothing. */
  lemma {:induction false} FilterIdempotent(files: seq<FileInfo>)
    ensures FilterImages(FilterImages(files)) == FilterImages(files)
  {
    if files != [] {
      FilterIdempotent(files[1..]);
      if IsImage(files[0]) {
        assert ([files[0]] + FilterImages(files[1..]))[1..] == FilterImages(files[1..]);
      }
    }
  }
}
