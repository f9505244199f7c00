/**
  How the script names its output (script.js lines 161, 171, 188, 207):
  `file.name.split('.')[0] + "-opt." + format.split('/')[1]` for an encoded
  image, and a fixed name for the archive of a batch.
 */
module Naming {
  import opened Wrappers
  import opened Text
  import Formats

  /** The name given to the archive of a multi-file batch. */
  const ArchiveName: string := "imagenes-optimizadas.zip"

  /** The infix between stem and extension. */
  const OptInfix: string := "-opt."

  /** `name.split('.')[0]`: the longest dot-free prefix of the name, which
      is the whole name when it has no dot and otherwise stops at the first
      dot. */
  function Stem(name: string): (st: string)
    ensures '.' !in st
    ensures |st| <= |name| && st == name[..|st|]
    ensures '.' in name ==> |st| < |name| && name[|st|] == '.'
    ensures '.' !in name ==> st == name
  {
    SplitHead(name, '.');
    Split(name, '.')[0]
  }

  /** `format.split('/')[1]`, which is `undefined` exactly when `format` has
      no slash. */
  function Extension(format: string): (e: Option<string>)
    ensures e.Some? <==> '/' in format
  {
    var parts := Split(format, '/');
    if |parts| >= 2 then Some(parts[1]) else None
  }

  /** What a template literal makes of the extension: `undefined` prints as
      the word "undefined". */
  function ExtensionText(format: string): (t: string)
    ensures '/' in format ==> Extension(format) == Some(t)
    ensures '/' !in format ==> t == "undefined"
  {
    match Extension(format)
    case Some(e) => e
    case None => "undefined"
  }

  /** The derived name of one encoded image: the name's text before its
      first dot, then "-opt.", then the extension. */
  function OutputName(name: string, format: string): (r: string)
    ensures var st := Stem(name);
      && |st| <= |r|
      && r[..|st|] == name[..|st|]
      && '.' !in r[..|st|]
      && r[|st|..] == OptInfix + ExtensionText(format)
  {
    Stem(name) + OptInfix + ExtensionText(format)
  }

  /** The extension of `t + "/" + after`, for a slash-free `t`, is the
      first slash field of `after`. */
  lemma ExtensionOfParts(t: string, after: string)
    requires '/' !in t
    ensures Extension(t + "/" + after) == Some(Split(after, '/')[0])
  {
    SplitAfter(t, '/', after);
  }

  /** The extension is the slash-free run right after the first slash: for
      `t + "/" + e + rest` with `t` and `e` slash-free and `rest` empty or
      starting at the next slash, it is `e`. */
  lemma ExtensionAfterFirstSlash(t: string, e: string, rest: string)
    requires '/' !in t && '/' !in e
    requires rest == [] || rest[0] == '/'
    ensures Extension(t + "/" + (e + rest)) == Some(e)
  {
    ExtensionOfParts(t, e + rest);
    FieldBeforeSlash(e, rest);
  }

  /** A slash-free `e` followed by nothing or by a slash is the first slash
      field. */
  lemma FieldBeforeSlash(e: string, rest: string)
    requires '/' !in e
    requires rest == [] || rest[0] == '/'
    ensures Split(e + rest, '/')[0] == e
  {
    if rest == [] {
      assert e + rest == e;
      SplitNone(e, '/');
    } else {
      assert e + rest == e + ['/'] + rest[1..];
      SplitAfter(e, '/', rest[1..]);
    }
  }

  /** Output names of two files for the same format collide exactly when
      their stems are equal (the archive keeps only one of them). */
  lemma {:induction false} OutputNameCollides(a: string, b: string, format: string)
    ensures OutputName(a, format) == OutputName(b, format) <==> Stem(a) == Stem(b)
  {
    var suffix := OptInfix + ExtensionText(format);
    assert OutputName(a, format) == Stem(a) + suffix;
    assert OutputName(b, format) == Stem(b) + suffix;
    if Stem(a) + suffix == Stem(b) + suffix {
      assert |Stem(a)| == |Stem(b)|;
      assert Stem(a) == (Stem(a) + suffix)[..|Stem(a)|];
      assert Stem(b) == (Stem(b) + suffix)[..|Stem(b)|];
    }
  }

  /** Naming by parts: the stem of `pre + "." + post` is `pre` when `pre`
      has no dot, and the extension of `t + "/" + e` is `e` when neither
      part has a slash. */
  lemma OutputNameOfParts(pre: string, post: string, t: string, e: string)
    requires '.' !in pre && '/' !in t && '/' !in e
    ensures OutputName(pre + "." + post, t + "/" + e) == pre + "-opt." + e
  {
    SplitAfter(pre, '.', post);
    SplitAfter(t, '/', e);
    SplitNone(e, '/');
  }

  /** A multi-dot name keeps only the text before its first dot:
      "a.b.c.png" for "image/jpeg" is named "a-opt.jpeg". The strings are
      written in parts so that the verifier reasons about the parts rather
      than evaluating the split character by character. */
  lemma MultiDotExample()
    ensures OutputName("a" + ".b.c.png", "image/" + "jpeg") == "a" + "-opt." + "jpeg"
  {
    assert "a" + ".b.c.png" == "a" + "." + "b.c.png";
    assert "image/" + "jpeg" == "image" + "/" + "jpeg";
    OutputNameOfParts("a", "b.c.png", "image", "jpeg");
  }

  /** A name without a dot is kept whole. */
  lemma DotlessNameKeptWhole(name: string, t: string, e: string)
    requires '.' !in name && '/' !in t && '/' !in e
    ensures OutputName(name, t + "/" + e) == name + "-opt." + e
  {
    SplitNone(name, '.');
    ExtensionOfParts(t, e);
    SplitNone(e, '/');
  }

  /** A format without a slash gives the word "undefined" as extension. */
  lemma SlashlessFormatUndefined(name: string, format: string)
    requires '/' !in format
    ensures OutputName(name, format) == Stem(name) + "-opt.undefined"
  {
    SplitNone(format, '/');
  }

  /** The extension of "image/" followed by a slash-free subtype is that
      subtype. */
  lemma ImageSubtype(e: string)
    requires '/' !in e
    ensures ExtensionText("image/" + e) == e
  {
    assert "image/" + e == "image" + "/" + e;
    ExtensionOfParts("image", e);
    SplitNone(e, '/');
  }

  /** For each of the four selectable formats the extension is the MIME
      subtype: the MIME string is "image/" followed by the extension. */
  lemma ExtensionOfFormat(f: Formats.Format)
    ensures Formats.Mime(f) == "image/" + ExtensionText(Formats.Mime(f))
    ensures '/' !in ExtensionText(Formats.Mime(f))
  {
    match f
    case Avif =>
      assert Formats.Mime(f) == "image/" + "avif";
      ImageSubtype("avif");
    case WebP =>
      assert Formats.Mime(f) == "image/" + "webp";
      ImageSubtype("webp");
    case Jpeg =>
      assert Formats.Mime(f) == "image/" + "jpeg";
      ImageSubtype("jpeg");
    case Png =>
      assert Formats.Mime(f) == "image/" + "png";
      ImageSubtype("png");
  }
}
