/**
 * The image helpers the two image handlers share in substance: the accepted content types,
 * the stored file name `<id>_<timestamp>.<subtype>`, and the content type served for a
 * file extension.
 */
module ImageFormat {
  import opened Text

  const Png := "image/png"
  const Jpeg := "image/jpeg"
  const Gif := "image/gif"

  /** `['image/png', 'image/jpeg', 'image/gif'].includes(contentType)`. */
  predicate Allowed(contentType: string) {
    contentType == Png || contentType == Jpeg || contentType == Gif
  }

  /** `contentType.split('/')[1]` for an accepted content type. */
  function Subtype(contentType: string): (sub: string)
    requires Allowed(contentType)
    ensures contentType == "image/" + sub
    ensures sub != [] && '/' !in sub && '.' !in sub
  {
    contentType[6..]
  }

  /** `${id}_${Date.now()}.${subtype}`. */
  function NewFilename(id: int, now: nat, contentType: string): (name: string)
    requires Allowed(contentType)
    ensures name == IntToString(id) + "_" + NatToString(now) + "." + Subtype(contentType)
    ensures '/' !in name
  {
    var base := IntToString(id) + "_" + NatToString(now);
    assert forall k :: 0 <= k < |base| ==> base[k] != '/' by {
      forall k | 0 <= k < |base| ensures base[k] != '/' {
        var digits := NatToString(now);
        if k > |IntToString(id)| {
          assert base[k] == digits[k - |IntToString(id)| - 1];
        }
      }
    }
    base + "." + Subtype(contentType)
  }

  /** The `switch (ext)`: `.png` and `.gif` name their types, anything else is served as JPEG. */
  function ContentTypeForExtension(ext: string): (contentType: string)
    ensures Allowed(contentType)
    ensures contentType == Png <==> ext == ".png"
    ensures contentType == Gif <==> ext == ".gif"
  {
    if ext == ".png" then Png
    else if ext == ".gif" then Gif
    else Jpeg
  }

  /** The extension of a generated file name is the dot and the subtype of its content type. */
  lemma NewFilenameExtension(id: int, now: nat, contentType: string)
    requires Allowed(contentType)
    ensures Extname(NewFilename(id, now, contentType)) == "." + Subtype(contentType)
  {
    var base := IntToString(id) + "_" + NatToString(now);
    assert '/' !in base by {
      assert base + "." + Subtype(contentType) == NewFilename(id, now, contentType);
      forall k | 0 <= k < |base| ensures base[k] != '/' {
        assert base[k] == NewFilename(id, now, contentType)[k];
      }
    }
    ExtnameOfDotted(base, Subtype(contentType));
  }

  /** The extension `.<subtype>` of an accepted type is lower case and maps back to that type. */
  lemma ExtensionOfSubtype(contentType: string)
    requires Allowed(contentType)
    ensures Lower("." + Subtype(contentType)) == "." + Subtype(contentType)
    ensures ContentTypeForExtension("." + Subtype(contentType)) == contentType
  {
    var sub := Subtype(contentType);
    assert "image/" + sub == contentType;
    if contentType == Png {
      assert sub == "png";
    } else if contentType == Jpeg {
      assert sub == "jpeg";
    } else {
      assert sub == "gif";
    }
    LowerOfLowercase("." + sub);
  }

  /** A generated file name is served with the content type it was uploaded with, lower-cased or not. */
  lemma ServedTypeOfNewFilename(id: int, now: nat, contentType: string)
    requires Allowed(contentType)
    ensures ContentTypeForExtension(Extname(NewFilename(id, now, contentType))) == contentType
    ensures ContentTypeForExtension(Lower(Extname(NewFilename(id, now, contentType)))) == contentType
  {
    NewFilenameExtension(id, now, contentType);
    ExtensionOfSubtype(contentType);
  }
}
