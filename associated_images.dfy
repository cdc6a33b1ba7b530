/**
 * The names under which the iSyntax tile source offers the container's
 * associated images (label, macro, ...), and the lookup that maps a name
 * back to an image.
 *
 * An image is known here by its `image_type` key, the engine's image list
 * being the sequence of those keys in engine order.
 */
module AssociatedImages {
  import opened Wrappers
  import opened Text

  /** The key of the whole-slide image itself. */
  const WsiKey: string := "WSI"

  const ImageSuffix: string := "IMAGE"

  /**
   * The listed name of a key: a trailing `IMAGE` is dropped when something
   * is left in front of it, and the rest is lowercased. The name is the
   * lowercased prefix of the key that stops before that suffix, and holds no
   * ASCII capital.
   */
  function ListedName(key: string): (name: string)
    ensures |name| == if EndsWith(key, ImageSuffix) && |key| > |ImageSuffix| then |key| - |ImageSuffix| else |key|
    ensures forall i :: 0 <= i < |name| ==> name[i] == LowerChar(key[i])
    ensures forall i :: 0 <= i < |name| ==> !('A' <= name[i] <= 'Z')
  {
    if EndsWith(key, ImageSuffix) && |key| > |ImageSuffix| then Lower(key[..|key| - |ImageSuffix|])
    else Lower(key)
  }

  /** `getAssociatedImagesList`: the listed names of every image but the whole slide, in order. */
  function AssociatedImagesList(keys: seq<string>): (names: seq<string>)
    ensures |names| <= |keys|
  {
    if keys == [] then []
    else if keys[0] == WsiKey then AssociatedImagesList(keys[1..])
    else [ListedName(keys[0])] + AssociatedImagesList(keys[1..])
  }

  /**
   * The list holds exactly the listed names of the keys other than `WSI`,
   * and skipping the whole slide is all that shortens it.
   */
  lemma {:induction false} AssociatedImagesListContents(keys: seq<string>)
    ensures forall name :: name in AssociatedImagesList(keys) <==>
      exists i :: 0 <= i < |keys| && keys[i] != WsiKey && ListedName(keys[i]) == name
    ensures WsiKey !in keys ==> |AssociatedImagesList(keys)| == |keys|
  {
    if keys != [] {
      AssociatedImagesListContents(keys[1..]);
      var rest := AssociatedImagesList(keys[1..]);
      forall name | name in AssociatedImagesList(keys)
        ensures exists i :: 0 <= i < |keys| && keys[i] != WsiKey && ListedName(keys[i]) == name
      {
        if keys[0] != WsiKey && name == ListedName(keys[0]) {
          assert keys[0] != WsiKey && ListedName(keys[0]) == name;
        } else {
          assert name in rest;
          var i :| 0 <= i < |keys[1..]| && keys[1..][i] != WsiKey && ListedName(keys[1..][i]) == name;
          assert keys[i + 1] == keys[1..][i];
        }
      }
      forall name, i | 0 <= i < |keys| && keys[i] != WsiKey && ListedName(keys[i]) == name
        ensures name in AssociatedImagesList(keys)
      {
        if i > 0 {
          assert keys[1..][i - 1] == keys[i];
          assert name in rest;
        }
      }
      if WsiKey !in keys {
        assert WsiKey !in keys[1..] by {
          forall k | k in keys[1..] ensures k != WsiKey {
            var j :| 0 <= j < |keys[1..]| && keys[1..][j] == k;
            assert keys[j + 1] == k;
          }
        }
      }
    }
  }

  /** `_getAssociatedImage`'s test of a key against a requested name. */
  predicate KeyMatches(key: string, imageKey: string) {
    Lower(key) == imageKey ||
    (EndsWith(key, ImageSuffix) && Lower(key[..|key| - |ImageSuffix|]) == imageKey)
  }

  /** Every key matches its own listed name. */
  lemma ListedNameMatches(key: string)
    ensures KeyMatches(key, ListedName(key))
  {
  }

  /** The position of the first key that matches `imageKey`, or None when no key does. */
  function FirstMatch(keys: seq<string>, imageKey: string): (r: Option<nat>)
    ensures r.Some? ==> r.value < |keys| && KeyMatches(keys[r.value], imageKey)
    ensures r.Some? ==> forall j :: 0 <= j < r.value ==> !KeyMatches(keys[j], imageKey)
    ensures r.None? <==> forall j :: 0 <= j < |keys| ==> !KeyMatches(keys[j], imageKey)
  {
    if keys == [] then None
    else if KeyMatches(keys[0], imageKey) then Some(0)
    else
      assert forall k :: 0 < k < |keys| ==> keys[1..][k - 1] == keys[k];
      match FirstMatch(keys[1..], imageKey)
      case None => None
      case Some(j) => Some(j + 1)
  }

  /**
   * The loop of `_getAssociatedImage`: the position of the first image whose
   * key matches `imageKey`, or None when no key does.
   */
  method FindAssociatedImage(keys: seq<string>, imageKey: string) returns (found: Option<nat>)
    ensures found == FirstMatch(keys, imageKey)
    ensures found.Some? ==> found.value < |keys| && KeyMatches(keys[found.value], imageKey)
    ensures found.Some? ==> forall j :: 0 <= j < found.value ==> !KeyMatches(keys[j], imageKey)
    ensures found.None? <==> forall j :: 0 <= j < |keys| ==> !KeyMatches(keys[j], imageKey)
  {
    found := None;
    for i := 0 to |keys|
      invariant found.None?
      invariant forall j :: 0 <= j < i ==> !KeyMatches(keys[j], imageKey)
    {
      if KeyMatches(keys[i], imageKey) {
        found := Some(i);
        break;
      }
    }
  }

  /**
   * Every listed name leads back to an image: looking it up finds the image
   * it came from, or an earlier image whose key also matches it.
   */
  lemma ListedNamesResolve(keys: seq<string>, i: nat)
    requires i < |keys|
    ensures FirstMatch(keys, ListedName(keys[i])).Some?
    ensures FirstMatch(keys, ListedName(keys[i])).value <= i
  {
    ListedNameMatches(keys[i]);
  }

  /**
   * The lookup does not skip the whole slide: a `WSIIMAGE` is listed as `wsi`,
   * but looking `wsi` up finds the `WSI` image first.
   */
  lemma WsiShadowsListedName()
    ensures AssociatedImagesList([WsiKey, "WSIIMAGE"]) == ["wsi"]
    ensures FirstMatch([WsiKey, "WSIIMAGE"], "wsi") == Some(0)
  {
    var keys := [WsiKey, "WSIIMAGE"];
    assert keys[1..] == ["WSIIMAGE"];
    assert EndsWith("WSIIMAGE", ImageSuffix);
    assert "WSIIMAGE"[..3] == "WSI";
    assert Lower("WSI") == "wsi";
  }
}
