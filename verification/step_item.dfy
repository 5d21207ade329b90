/** A recipe step (or the ingredient block): free text plus an append-only list of image paths. */
module StepItems {
  import opened Wrappers

  class StepItem {
    var text: Option<string>
    var imagePaths: seq<string>

    /** The default constructor: no text and no images. */
    constructor ()
      ensures text.None? && imagePaths == []
    {
      text := None;
      imagePaths := [];
    }

    /** The two-argument constructor copies the given images in order and tolerates null. */
    constructor WithImages(text: Option<string>, images: Option<seq<string>>)
      ensures this.text == text
      ensures images.Some? ==> imagePaths == images.value
      ensures images.None? ==> imagePaths == []
    {
      this.text := text;
      imagePaths := [];
      if images.Some? {
        imagePaths := imagePaths + images.value;
      }
    }

    function GetText(): Option<string>
      reads this
    {
      text
    }

    method SetText(t: Option<string>)
      modifies this
      ensures GetText() == t && imagePaths == old(imagePaths)
    {
      text := t;
    }

    /** Appends one path after the existing ones. */
    method AddImagePath(path: string)
      modifies this
      ensures imagePaths == old(imagePaths) + [path] && text == old(text)
    {
      imagePaths := imagePaths + [path];
    }

    /** Appends all given paths, in order, after the existing ones. */
    method AddImagePaths(paths: seq<string>)
      modifies this
      ensures imagePaths == old(imagePaths) + paths && text == old(text)
    {
      imagePaths := imagePaths + paths;
    }
  }

  /** What a caller of the class can rely on: appends never disturb earlier entries, and they
      leave the text alone. */
  method AppendKeepsPrefix(item: StepItem, a: string, rest: seq<string>)
    modifies item
    ensures |item.imagePaths| == |old(item.imagePaths)| + 1 + |rest|
    ensures item.imagePaths[..|old(item.imagePaths)|] == old(item.imagePaths)
    ensures item.imagePaths[|old(item.imagePaths)|..] == [a] + rest
    ensures item.GetText() == old(item.GetText())
  {
    item.AddImagePath(a);
    item.AddImagePaths(rest);
  }
}
