/**
 * The GUI's image store (gui/state.py): the same list-and-selection store as the
 * application's, without listeners and without clear_images; its ImageState keeps the
 * preprocessed image itself and untyped parameter dictionaries.
 */
module GuiStore {
  import opened Wrappers
  import opened Grid
  import Selection

  class ImageState {
    var path: string
    var filename: string
    var original: Option<Grid<Bgr>>
    var preprocessed: Option<Grid<int>>
    var detected: Option<Grid<Bgr>>
    /** The parameter dictionaries; their values are kept as text. */
    var preprocessParams: map<string, string>
    var detectParams: map<string, string>

    /** ImageState(path, filename, original): the results are None and the dictionaries empty. */
    constructor (path: string, filename: string, original: Option<Grid<Bgr>>)
      ensures this.path == path && this.filename == filename && this.original == original
      ensures preprocessed == None && detected == None
      ensures preprocessParams == map[] && detectParams == map[]
    {
      this.path := path;
      this.filename := filename;
      this.original := original;
      preprocessed := None;
      detected := None;
      preprocessParams := map[];
      detectParams := map[];
    }
  }

  class AppState {
    var images: seq<ImageState>
    var activeIndex: int

    predicate Valid()
      reads this
    {
      Selection.Consistent(|images|, activeIndex)
    }

    constructor ()
      ensures images == [] && activeIndex == -1
      ensures Valid()
    {
      images := [];
      activeIndex := -1;
    }

    /** add_image: the image is appended and becomes active. */
    method AddImage(image: ImageState)
      requires Valid()
      modifies this
      ensures Valid()
      ensures images == old(images) + [image] && activeIndex == |images| - 1
    {
      images := images + [image];
      activeIndex := |images| - 1;
    }

    /**
     * remove_image: an index out of range changes nothing; otherwise the entry is removed
     * and the selection moves one step back.
     */
    method RemoveImage(index: int)
      requires Valid()
      modifies this
      ensures Valid()
      ensures !(0 <= index < |old(images)|) ==> images == old(images) && activeIndex == old(activeIndex)
      ensures 0 <= index < |old(images)| ==>
        images == Selection.Without(old(images), index) && activeIndex == Selection.AfterRemove(|images|, old(activeIndex))
    {
      if 0 <= index < |images| {
        images := Selection.Without(images, index);
        if |images| == 0 {
          activeIndex := -1;
        } else {
          activeIndex := if activeIndex - 1 > 0 then activeIndex - 1 else 0;
        }
      }
    }

    /** set_active: a valid index becomes active; any other is ignored. */
    method SetActive(index: int)
      requires Valid()
      modifies this
      ensures Valid()
      ensures images == old(images)
      ensures activeIndex == if 0 <= index < |images| then index else old(activeIndex)
    {
      if 0 <= index < |images| {
        activeIndex := index;
      }
    }

    /** active: the selected image, or None exactly when the store is empty. */
    function Active(): (a: Option<ImageState>)
      requires Valid()
      reads this
      ensures a.None? <==> |images| == 0
      ensures a.Some? ==> a.value == images[activeIndex] && a.value in images
    {
      if activeIndex == -1 then None else Some(images[activeIndex])
    }
  }
}
