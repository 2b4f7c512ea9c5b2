/**
 * The gallery editor of the admin settings (admin/src/components/settings/MultiImageForm.jsx):
 * the list of images with an order and an editing state, the handlers that move an image one
 * place up or down, delete it and undo the deletion, and the summary of changes the form
 * passes to its parent after each of them.
 */
module MultiImageForm {
  import opened Wrappers
  import opened Sequences

  /** `_state`: 'normal', 'new', 'edited' or 'deleted'. */
  datatype ImageState = Normal | New | Edited | Deleted

  /** An image as the form holds it; `hasFile` stands for a non-null `_file`. */
  datatype Image = Image(id: string, name: string, order: int, state: ImageState, isNew: bool, hasFile: bool)

  /** An entry of `reorderedImages`. */
  datatype Reordered = Reordered(name: string, order: int)

  /** The object `notifyChange` hands to `onChange`. */
  datatype Changes = Changes(newImages: seq<Image>, deletedImages: seq<Image>, reorderedImages: seq<Reordered>)

  /* ---------------------------------------------------------------------------------- */
  /* notifyChange                                                                       */
  /* ---------------------------------------------------------------------------------- */

  predicate IsUpload(img: Image) {
    img.isNew && img.hasFile
  }

  predicate IsDeleted(img: Image) {
    img.state == Deleted
  }

  predicate IsKept(img: Image) {
    img.state != Deleted
  }

  /** The kept images by name, numbered from 0 in their order. */
  function Numbered(kept: seq<Image>): (r: seq<Reordered>)
    ensures |r| == |kept|
  {
    seq(|kept|, i requires 0 <= i < |kept| => Reordered(kept[i].name, i))
  }

  /** `notifyChange(updatedImages)`, when the parent passed an `onChange`. */
  function NotifyChange(images: seq<Image>): Changes {
    Changes(Filter(images, IsUpload), Filter(images, IsDeleted), Numbered(Filter(images, IsKept)))
  }

  /** Every image is either reported deleted or kept for the reordered list, counted with repetition. */
  lemma NotifyChangePartitions(images: seq<Image>)
    ensures multiset(images) == multiset(NotifyChange(images).deletedImages) + multiset(Filter(images, IsKept))
  {
    var deleted := Filter(images, IsDeleted);
    var kept := Filter(images, IsKept);
    assert NotifyChange(images).deletedImages == deleted;
    forall x ensures multiset(images)[x] == multiset(deleted)[x] + multiset(kept)[x] {
      FilterCount(images, IsDeleted, x);
      FilterCount(images, IsKept, x);
    }
  }

  /** The uploads are exactly the new images with a file, and the deletions exactly the deleted images. */
  lemma NotifyChangeMembers(images: seq<Image>, x: Image)
    ensures x in NotifyChange(images).newImages <==> x in images && x.isNew && x.hasFile
    ensures x in NotifyChange(images).deletedImages <==> x in images && x.state == Deleted
  {
    assert x in Filter(images, IsUpload) <==> x in images && IsUpload(x);
    assert x in Filter(images, IsDeleted) <==> x in images && IsDeleted(x);
  }

  /** The reordered entries name the kept images in their order and number them 0, 1, 2, ... */
  lemma NotifyChangeNumbers(images: seq<Image>)
    ensures var r := NotifyChange(images).reorderedImages;
      var kept := Filter(images, IsKept);
      && |r| == |kept|
      && forall k :: 0 <= k < |r| ==> r[k].order == k && r[k].name == kept[k].name && kept[k].state != Deleted
  {
  }

  /* ---------------------------------------------------------------------------------- */
  /* handleMoveImage                                                                    */
  /* ---------------------------------------------------------------------------------- */

  /** `images.findIndex(img => img.id === imageId)`, with `None` for -1. */
  function IndexOfId(images: seq<Image>, id: string): (r: Option<nat>)
    ensures r.Some? ==> r.value < |images| && images[r.value].id == id
                        && forall k :: 0 <= k < r.value ==> images[k].id != id
    ensures r.None? ==> forall k :: 0 <= k < |images| ==> images[k].id != id
  {
    if images == [] then None
    else if images[0].id == id then Some(0)
    else match IndexOfId(images[1..], id)
      case None => None
      case Some(k) => Some(k + 1)
  }

  /** `images.find(i => i.id === id)`. */
  function FindById(images: seq<Image>, id: string): (r: Option<Image>)
    ensures r.Some? <==> exists k :: 0 <= k < |images| && images[k].id == id
    ensures r.Some? ==> r.value.id == id && r.value in images
  {
    match IndexOfId(images, id)
    case None => None
    case Some(i) => Some(images[i])
  }

  /** `direction === 'up' ? index - 1 : index + 1`. */
  function TargetIndex(index: nat, direction: string): int {
    if direction == "up" then index - 1 else index + 1
  }

  /** `splice(index, 1)` and then `splice(newIndex, 0, movedImage)` on a copy. */
  function Spliced(images: seq<Image>, index: nat, newIndex: nat): (r: seq<Image>)
    requires index < |images| && newIndex < |images|
    ensures |r| == |images|
  {
    var rest := images[..index] + images[index + 1..];
    rest[..newIndex] + [images[index]] + rest[newIndex..]
  }

  /**
   * One image at position `newOrder` after the move: it takes that order, and becomes 'edited'
   * when the first image of `original` with its id had another order and it is neither new nor deleted.
   */
  function Mark(original: seq<Image>, img: Image, newOrder: nat): Image {
    var orig := FindById(original, img.id);
    var hasChangedPosition := orig.Some? && orig.value.order != newOrder;
    var shouldMarkEdited := hasChangedPosition && img.state != New && img.state != Deleted;
    img.(order := newOrder, state := if shouldMarkEdited then Edited else img.state)
  }

  function Renumbered(original: seq<Image>, updated: seq<Image>): (r: seq<Image>)
    ensures |r| == |updated|
  {
    seq(|updated|, idx requires 0 <= idx < |updated| => Mark(original, updated[idx], idx))
  }

  lemma RenumberedStep(original: seq<Image>, updated: seq<Image>, idx: nat)
    requires idx < |updated|
    ensures Renumbered(original, updated[..idx + 1])
         == Renumbered(original, updated[..idx]) + [Mark(original, updated[idx], idx)]
  {
  }

  /** What `handleMoveImage(imageId, direction)` sets the images to, or `None` when it returns early. */
  function MovedImages(images: seq<Image>, imageId: string, direction: string): Option<seq<Image>> {
    match IndexOfId(images, imageId)
    case None => None
    case Some(index) =>
      var newIndex := TargetIndex(index, direction);
      if newIndex < 0 || newIndex >= |images| then None
      else Some(Renumbered(images, Spliced(images, index, newIndex as nat)))
  }

  /** Moving an image one place exchanges it with its neighbour. */
  lemma SplicedSwaps(images: seq<Image>, index: nat, newIndex: nat)
    requires index < |images| && newIndex < |images|
    requires newIndex == index + 1 || index == newIndex + 1
    ensures Spliced(images, index, newIndex) == images[index := images[newIndex]][newIndex := images[index]]
  {
    var r := Spliced(images, index, newIndex);
    var s := images[index := images[newIndex]][newIndex := images[index]];
    forall k | 0 <= k < |images| ensures r[k] == s[k] {
    }
  }

  /** The position an image comes from after exchanging positions `a` and `b`. */
  function Swapped(k: nat, a: nat, b: nat): nat {
    if k == a then b else if k == b then a else k
  }

  /**
   * The move does nothing exactly when no image has the id, or the first image with it is the
   * first of the list moved up or the last moved down.
   */
  lemma MoveNoOpIff(images: seq<Image>, imageId: string, direction: string)
    ensures MovedImages(images, imageId, direction).None? <==>
      (forall k :: 0 <= k < |images| ==> images[k].id != imageId)
      || (images != [] && images[0].id == imageId && direction == "up")
      || (exists i :: 0 <= i < |images| && IndexOfId(images, imageId) == Some(i) && i == |images| - 1 && direction != "up")
  {
  }

  /**
   * A move that happens exchanges the image with its neighbour: every position holds the image
   * from the exchanged position, with its order set to the position. Only the editing state
   * may change, and only to 'edited': new and deleted images keep theirs, and any other image
   * is 'edited' afterwards exactly when it was already or the first image of the list before
   * the move with its id had an order other than its new position.
   */
  lemma MovePermutes(images: seq<Image>, imageId: string, direction: string)
    requires MovedImages(images, imageId, direction).Some?
    ensures var r := MovedImages(images, imageId, direction).value;
      var index := IndexOfId(images, imageId).value;
      var newIndex := TargetIndex(index, direction);
      && 0 <= newIndex < |images|
      && |r| == |images|
      && forall k :: 0 <= k < |r| ==>
           var src := images[Swapped(k, index, newIndex as nat)];
           && r[k].order == k
           && r[k] == src.(order := k, state := r[k].state)
           && (r[k].state == src.state || r[k].state == Edited)
           && (src.state in {New, Deleted} ==> r[k].state == src.state)
           && (src.state !in {New, Deleted} ==>
                 (r[k].state == Edited <==>
                    src.state == Edited || (FindById(images, src.id).Some? && FindById(images, src.id).value.order != k)))
  {
    var index := IndexOfId(images, imageId).value;
    var newIndex := TargetIndex(index, direction) as nat;
    SplicedSwaps(images, index, newIndex);
  }

  /**
   * In a list numbered by position with distinct ids, a move leaves every other image as it
   * was and marks the two exchanged images 'edited' unless they are new or deleted.
   */
  lemma MoveMarksExchanged(images: seq<Image>, imageId: string, direction: string)
    requires MovedImages(images, imageId, direction).Some?
    requires forall k :: 0 <= k < |images| ==> images[k].order == k
    requires forall a, b :: 0 <= a < b < |images| ==> images[a].id != images[b].id
    ensures var r := MovedImages(images, imageId, direction).value;
      var index := IndexOfId(images, imageId).value;
      var newIndex := TargetIndex(index, direction);
      && (forall k :: 0 <= k < |r| && k != index && k != newIndex ==> r[k] == images[k])
      && (forall k :: 0 <= k < |r| && (k == index || k == newIndex) ==>
            r[k].state == (if images[Swapped(k, index, newIndex as nat)].state in {New, Deleted}
                           then images[Swapped(k, index, newIndex as nat)].state else Edited))
  {
    var index := IndexOfId(images, imageId).value;
    var newIndex := TargetIndex(index, direction) as nat;
    var spliced := Spliced(images, index, newIndex);
    var r := MovedImages(images, imageId, direction).value;
    assert r == Renumbered(images, spliced);
    SplicedSwaps(images, index, newIndex);
    FindsOwnImage(images);
    forall k | 0 <= k < |r|
      ensures k != index && k != newIndex ==> r[k] == images[k]
      ensures k == index || k == newIndex ==>
        r[k].state == (if images[Swapped(k, index, newIndex)].state in {New, Deleted}
                       then images[Swapped(k, index, newIndex)].state else Edited)
    {
      var j := Swapped(k, index, newIndex);
      assert spliced[k] == images[j];
      MarkAt(images, j, k);
    }
  }

  /** An image found under its own id and numbered by its position is marked exactly when it lands elsewhere. */
  lemma MarkAt(images: seq<Image>, j: nat, k: nat)
    requires j < |images| && images[j].order == j
    requires FindById(images, images[j].id) == Some(images[j])
    ensures j == k ==> Mark(images, images[j], k) == images[j]
    ensures j != k ==> Mark(images, images[j], k)
                       == images[j].(order := k, state := if images[j].state in {New, Deleted} then images[j].state else Edited)
  {
  }

  /** With distinct ids, looking an image up by its id finds that image. */
  lemma FindsOwnImage(images: seq<Image>)
    requires forall a, b :: 0 <= a < b < |images| ==> images[a].id != images[b].id
    ensures forall k :: 0 <= k < |images| ==> FindById(images, images[k].id) == Some(images[k])
  {
    forall k | 0 <= k < |images| ensures FindById(images, images[k].id) == Some(images[k]) {
      var j := IndexOfId(images, images[k].id).value;
      assert j == k;
    }
  }

  /* ---------------------------------------------------------------------------------- */
  /* handleDeleteImage and handleUndoDelete                                             */
  /* ---------------------------------------------------------------------------------- */

  /** What `handleDeleteImage(imageId)` sets the images to. */
  function DeletedImages(images: seq<Image>, imageId: string): (r: seq<Image>)
    ensures |r| == |images|
  {
    seq(|images|, k requires 0 <= k < |images| =>
      if images[k].id == imageId then images[k].(state := Deleted) else images[k])
  }

  /** The state an undone deletion restores: 'new' for a new image, 'normal' otherwise. */
  function RestoredState(img: Image): ImageState {
    if img.isNew then New else Normal
  }

  /** What `handleUndoDelete(imageId)` sets the images to. */
  function UndoneImages(images: seq<Image>, imageId: string): (r: seq<Image>)
    ensures |r| == |images|
  {
    seq(|images|, k requires 0 <= k < |images| =>
      if images[k].id == imageId then images[k].(state := RestoredState(images[k])) else images[k])
  }

  /**
   * After a deletion the images with the id are reported as deleted and left out of the
   * reordered list; the other images are unchanged.
   */
  lemma DeleteReports(images: seq<Image>, imageId: string)
    ensures var r := DeletedImages(images, imageId);
      var c := NotifyChange(r);
      && (forall k :: 0 <= k < |images| && images[k].id == imageId ==>
            r[k] == images[k].(state := Deleted) && r[k] in c.deletedImages)
      && (forall k :: 0 <= k < |images| && images[k].id != imageId ==> r[k] == images[k])
      && (forall x :: x in Filter(r, IsKept) ==> x.id != imageId)
  {
    var r := DeletedImages(images, imageId);
    forall k | 0 <= k < |images| && images[k].id == imageId ensures r[k] in NotifyChange(r).deletedImages {
      assert r[k] in r && IsDeleted(r[k]);
      assert r[k] in Filter(r, IsDeleted);
    }
    forall x | x in Filter(r, IsKept) ensures x.id != imageId {
      assert x in r;
    }
  }

  /**
   * Undoing a deletion brings back exactly the images it deleted when, and only when, each
   * image with the id was in the state the undo restores ('new' for a new image, 'normal'
   * otherwise): an image that was 'edited' comes back 'normal'.
   */
  lemma UndoAfterDelete(images: seq<Image>, imageId: string)
    ensures UndoneImages(DeletedImages(images, imageId), imageId) == images
        <==> forall k :: 0 <= k < |images| && images[k].id == imageId ==> images[k].state == RestoredState(images[k])
  {
    var u := UndoneImages(DeletedImages(images, imageId), imageId);
    if forall k :: 0 <= k < |images| && images[k].id == imageId ==> images[k].state == RestoredState(images[k]) {
      forall k | 0 <= k < |images| ensures u[k] == images[k] {
      }
    } else {
      var k :| 0 <= k < |images| && images[k].id == imageId && images[k].state != RestoredState(images[k]);
      assert u[k].state != images[k].state;
    }
  }

  /* ---------------------------------------------------------------------------------- */
  /* The form's state                                                                   */
  /* ---------------------------------------------------------------------------------- */

  /** The `images` state of the form; each handler replaces it and reports the changes. */
  class Gallery {
    var images: seq<Image>

    constructor(images: seq<Image>)
      ensures this.images == images
    {
      this.images := images;
    }

    /** `handleMoveImage`: `None` when it returns early, otherwise the changes it reports. */
    method MoveImage(imageId: string, direction: string) returns (notified: Option<Changes>)
      modifies this
      ensures MovedImages(old(images), imageId, direction).None? ==> images == old(images) && notified == None
      ensures MovedImages(old(images), imageId, direction).Some? ==>
        images == MovedImages(old(images), imageId, direction).value && notified == Some(NotifyChange(images))
    {
      var current := images;
      var index := 0;
      while index < |current| && current[index].id != imageId
        invariant index <= |current|
        invariant forall k :: 0 <= k < index ==> current[k].id != imageId
      {
        index := index + 1;
      }
      if index == |current| {
        return None;
      }
      assert IndexOfId(current, imageId) == Some(index);
      var newIndex := if direction == "up" then index - 1 else index + 1;
      if newIndex < 0 || newIndex >= |current| {
        return None;
      }
      var updatedImages := current;
      var movedImage := updatedImages[index];
      updatedImages := updatedImages[..index] + updatedImages[index + 1..];
      updatedImages := updatedImages[..newIndex] + [movedImage] + updatedImages[newIndex..];
      assert updatedImages == Spliced(current, index, newIndex);
      assert MovedImages(current, imageId, direction) == Some(Renumbered(current, updatedImages));
      var finalImages: seq<Image> := [];
      for idx := 0 to |updatedImages|
        invariant finalImages == Renumbered(current, updatedImages[..idx])
      {
        var img := updatedImages[idx];
        var originalImage := FindById(current, img.id);
        var hasChangedPosition := originalImage.Some? && originalImage.value.order != idx;
        var shouldMarkEdited := hasChangedPosition && img.state != New && img.state != Deleted;
        RenumberedStep(current, updatedImages, idx);
        finalImages := finalImages + [img.(order := idx, state := if shouldMarkEdited then Edited else img.state)];
      }
      assert updatedImages[..|updatedImages|] == updatedImages;
      assert finalImages == Renumbered(current, updatedImages);
      images := finalImages;
      notified := Some(NotifyChange(images));
    }

    /** `handleDeleteImage`. */
    method DeleteImage(imageId: string) returns (notified: Changes)
      modifies this
      ensures images == DeletedImages(old(images), imageId)
      ensures notified == NotifyChange(images)
    {
      images := DeletedImages(images, imageId);
      notified := NotifyChange(images);
    }

    /** `handleUndoDelete`. */
    method UndoDelete(imageId: string) returns (notified: Changes)
      modifies this
      ensures images == UndoneImages(old(images), imageId)
      ensures notified == NotifyChange(images)
    {
      images := UndoneImages(images, imageId);
      notified := NotifyChange(images);
    }
  }
}
