/**
 * The application's image store (app/state.py): one ImageState per loaded image, the
 * active index, and the listeners that are called back after every change.
 */
module AppStore {
  import opened Wrappers
  import opened Grid
  import Defs
  import Selection

  /** One loaded image and what the pipeline attaches to it. */
  class ImageState {
    var path: string
    var filename: string
    var original: Option<Grid<Bgr>>
    var preprocessed: Defs.PreprocessedImage
    var detected: Option<Grid<Bgr>>
    var preprocessParams: Defs.PreprocessParams
    var detectParams: Defs.DetectParams
    var autoInfo: string
    /** The status line the processor writes; Python creates this attribute on first write. */
    var info: string

    /** Every field except info, for stating that a step changes info and nothing else. */
    function Record(): (Option<Grid<Bgr>>, Defs.PreprocessedImage, Option<Grid<Bgr>>, Defs.PreprocessParams, Defs.DetectParams, string, string, string)
      reads this
    {
      (original, preprocessed, detected, preprocessParams, detectParams, autoInfo, path, filename)
    }

    /** The images are numpy arrays, hence rectangular. */
    predicate Valid()
      reads this
    {
      && (original.Some? ==> IsRect(original.value))
      && (preprocessed.img.Some? ==> IsRect(preprocessed.img.value))
    }

    /** ImageState(path, filename, original): every other field takes its dataclass default. */
    constructor (path: string, filename: string, original: Option<Grid<Bgr>>)
      requires original.Some? ==> IsRect(original.value)
      ensures this.path == path && this.filename == filename && this.original == original
      ensures preprocessed == Defs.DefaultPreprocessedImage() && detected == None
      ensures preprocessParams == Defs.DefaultPreprocessParams()
      ensures detectParams == Defs.DefaultDetectParams()
      ensures autoInfo == "" && info == ""
      ensures Valid()
    {
      this.path := path;
      this.filename := filename;
      this.original := original;
      preprocessed := Defs.DefaultPreprocessedImage();
      detected := None;
      preprocessParams := Defs.DefaultPreprocessParams();
      detectParams := Defs.DefaultDetectParams();
      autoInfo := "";
      info := "";
    }
  }

  /** A registered callback, known by its identity; what it does is outside the model. */
  type Listener = nat

  class AppState {
    var images: seq<ImageState>
    var activeIndex: int
    var listeners: seq<Listener>
    /** Every callback invocation so far, in call order. */
    var fired: seq<Listener>
    /** How many times _notify has run. */
    var notifyCount: nat

    predicate Valid()
      reads this
    {
      Selection.Consistent(|images|, activeIndex)
    }

    constructor ()
      ensures images == [] && activeIndex == -1 && listeners == [] && fired == [] && notifyCount == 0
      ensures Valid()
    {
      images := [];
      activeIndex := -1;
      listeners := [];
      fired := [];
      notifyCount := 0;
    }

    /** add_listener: the callback is appended and will be called on every later change. */
    method AddListener(callback: Listener)
      modifies this
      ensures listeners == old(listeners) + [callback]
      ensures images == old(images) && activeIndex == old(activeIndex) && fired == old(fired)
      ensures notifyCount == old(notifyCount)
    {
      listeners := listeners + [callback];
    }

    /** _notify: every listener is called once, in registration order. */
    method Notify()
      modifies this
      ensures fired == old(fired) + listeners && notifyCount == old(notifyCount) + 1
      ensures images == old(images) && activeIndex == old(activeIndex) && listeners == old(listeners)
    {
      notifyCount := notifyCount + 1;
      var i := 0;
      while i < |listeners|
        invariant 0 <= i <= |listeners|
        invariant fired == old(fired) + listeners[..i]
        invariant images == old(images) && activeIndex == old(activeIndex) && listeners == old(listeners)
        invariant notifyCount == old(notifyCount) + 1
      {
        fired := fired + [listeners[i]];
        i := i + 1;
      }
      assert listeners[..i] == listeners;
    }

    /** add_image: the image is appended, becomes active, and listeners are told. */
    method AddImage(image: ImageState)
      requires Valid()
      modifies this
      ensures Valid()
      ensures images == old(images) + [image] && activeIndex == |images| - 1
      ensures fired == old(fired) + listeners && listeners == old(listeners)
      ensures notifyCount == old(notifyCount) + 1
    {
      images := images + [image];
      activeIndex := |images| - 1;
      Notify();
    }

    /**
     * remove_image: an index out of range changes nothing and notifies no one; otherwise
     * the entry is removed, the selection moves one step back, and listeners are told.
     */
    method RemoveImage(index: int)
      requires Valid()
      modifies this
      ensures Valid()
      ensures listeners == old(listeners)
      ensures !(0 <= index < |old(images)|) ==>
        images == old(images) && activeIndex == old(activeIndex) && fired == old(fired) && notifyCount == old(notifyCount)
      ensures 0 <= index < |old(images)| ==>
        && images == Selection.Without(old(images), index)
        && activeIndex == Selection.AfterRemove(|images|, old(activeIndex))
        && fired == old(fired) + listeners
        && notifyCount == old(notifyCount) + 1
    {
      if 0 <= index < |images| {
        images := Selection.Without(images, index);
        if |images| == 0 {
          activeIndex := -1;
        } else {
          activeIndex := if activeIndex - 1 > 0 then activeIndex - 1 else 0;
        }
        Notify();
      }
    }

    /** clear_images: the list is emptied, nothing is active, and listeners are told. */
    method ClearImages()
      modifies this
      ensures Valid()
      ensures images == [] && activeIndex == -1
      ensures fired == old(fired) + listeners && listeners == old(listeners)
      ensures notifyCount == old(notifyCount) + 1
    {
      images := [];
      activeIndex := -1;
      Notify();
    }

    /** set_active: a valid index becomes active and listeners are told; any other is ignored. */
    method SetActive(index: int)
      requires Valid()
      modifies this
      ensures Valid()
      ensures images == old(images) && listeners == old(listeners)
      ensures 0 <= index < |images| ==>
        activeIndex == index && fired == old(fired) + listeners && notifyCount == old(notifyCount) + 1
      ensures !(0 <= index < |images|) ==>
        activeIndex == old(activeIndex) && fired == old(fired) && notifyCount == old(notifyCount)
    {
      if 0 <= index < |images| {
        activeIndex := index;
        Notify();
      }
    }

    /** active: the selected image, or None exactly when the store is empty. */
    function Active(): (a: Option<ImageState>)
      requires Valid()
      reads this
      ensures a.None? <==> |images| == 0
      ensures a.Some? ==> a.value == images[activeIndex] && a.value in images
    {
      if activeIndex == -1 then None else Some(images[activeIndex])
    }
  }
}
