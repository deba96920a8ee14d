/** The photo picker (src/components/atoms/PhotoUpload.jsx): a chosen or
    dropped file is checked for type and size, an accepted one opens the
    crop dialog, and saving the crop hands the cropped image to the parent
    through `onChange`. The file read and the canvas crop are not modelled:
    their results (a data URL, the cropped image) are parameters. */
module PhotoUpload {
  import opened Results
  import opened Text

  /** A browser `File`: its MIME type and size in bytes. */
  datatype File = File(mimeType: string, size: nat)

  /** A completed crop rectangle. */
  datatype Crop = Crop(x: int, y: int, width: int, height: int)

  /** The 5 MB limit. */
  const MaxPhotoBytes: nat := 5 * 1024 * 1024

  /** How `handleFileSelect` ends. */
  datatype FileCheck = NoFile | NotAnImage | TooLarge | Accepted

  /** Lines 18-30: nothing without a file, then the type check, then the size check. */
  function CheckFile(file: Option<File>): (c: FileCheck)
    ensures c == NoFile <==> file.None?
    ensures c == NotAnImage <==> file.Some? && !StartsWith(file.value.mimeType, "image/")
    ensures c == TooLarge <==> file.Some? && StartsWith(file.value.mimeType, "image/") && file.value.size > MaxPhotoBytes
    ensures c == Accepted <==> file.Some? && StartsWith(file.value.mimeType, "image/") && file.value.size <= MaxPhotoBytes
  {
    match file
    case None => NoFile
    case Some(f) =>
      if !StartsWith(f.mimeType, "image/") then NotAnImage
      else if f.size > MaxPhotoBytes then TooLarge
      else Accepted
  }

  /** Exactly 5242880 bytes is accepted, one more is not, and a large non-image is refused for its type. */
  lemma CheckFileBoundaries()
    ensures CheckFile(Some(File("image/png", 5242880))) == Accepted
    ensures CheckFile(Some(File("image/png", 5242881))) == TooLarge
    ensures CheckFile(Some(File("application/pdf", 5242881))) == NotAnImage
  {
    assert StartsWith("image/png", "image/") by {
      assert "image/png"[..6] == "image/";
    }
    assert !StartsWith("application/pdf", "image/") by {
      assert "application/pdf"[0] != "image/"[0];
    }
  }

  /** `handleDrop` and `handleFileInputChange`: the first file, if any. */
  function FirstFile(files: seq<File>): (f: Option<File>)
    ensures f.None? <==> files == []
    ensures f.Some? ==> f.value == files[0]
  {
    if files == [] then None else Some(files[0])
  }

  /** The component's state, with `value` standing for the photo the parent keeps. */
  class PhotoUploadState {
    var value: string
    var isDragging: bool
    var showCropModal: bool
    var originalImage: Option<string>
    var completedCrop: Option<Crop>

    constructor (value: string)
      ensures this.value == value && !isDragging && !showCropModal
      ensures originalImage.None? && completedCrop.None?
    {
      this.value := value;
      isDragging := false;
      showCropModal := false;
      originalImage := None;
      completedCrop := None;
    }

    /** `handleFileSelect(file)`, with the reader's result `dataUrl`: an accepted file opens the crop dialog on it;
        a refused one changes nothing. */
    method SelectFile(file: Option<File>, dataUrl: string) returns (c: FileCheck)
      modifies this
      ensures c == CheckFile(file)
      ensures c == Accepted ==> originalImage == Some(dataUrl) && showCropModal
                                && value == old(value) && completedCrop == old(completedCrop)
                                && isDragging == old(isDragging)
      ensures c != Accepted ==> value == old(value) && showCropModal == old(showCropModal)
                                && originalImage == old(originalImage) && completedCrop == old(completedCrop)
                                && isDragging == old(isDragging)
    {
      c := CheckFile(file);
      if c == Accepted {
        originalImage := Some(dataUrl);
        showCropModal := true;
      }
    }

    /** `handleDragOver`. */
    method DragOver()
      modifies this
      ensures isDragging
      ensures value == old(value) && showCropModal == old(showCropModal)
      ensures originalImage == old(originalImage) && completedCrop == old(completedCrop)
    {
      isDragging := true;
    }

    /** `handleDragLeave`. */
    method DragLeave()
      modifies this
      ensures !isDragging
      ensures value == old(value) && showCropModal == old(showCropModal)
      ensures originalImage == old(originalImage) && completedCrop == old(completedCrop)
    {
      isDragging := false;
    }

    /** `handleDrop`: stops the drag highlight and selects the first dropped file. */
    method Drop(files: seq<File>, dataUrl: string) returns (c: FileCheck)
      modifies this
      ensures !isDragging
      ensures c == CheckFile(FirstFile(files))
      ensures c == Accepted ==> originalImage == Some(dataUrl) && showCropModal
      ensures c != Accepted ==> showCropModal == old(showCropModal) && originalImage == old(originalImage)
      ensures value == old(value) && completedCrop == old(completedCrop)
    {
      isDragging := false;
      if files == [] {
        c := NoFile;
        return;
      }
      c := SelectFile(Some(files[0]), dataUrl);
    }

    /** The crop widget's `onComplete`. */
    method CompleteCrop(crop: Crop)
      modifies this
      ensures completedCrop == Some(crop)
      ensures value == old(value) && showCropModal == old(showCropModal)
      ensures originalImage == old(originalImage) && isDragging == old(isDragging)
    {
      completedCrop := Some(crop);
    }

    /** The dialog's cancel and close buttons. */
    method CloseCropModal()
      modifies this
      ensures !showCropModal
      ensures value == old(value) && originalImage == old(originalImage)
      ensures completedCrop == old(completedCrop) && isDragging == old(isDragging)
    {
      showCropModal := false;
    }

    /** `handleCropSave`, with `imageMounted` for `imgRef.current` and `cropped` for the canvas result:
        nothing happens without a completed crop and a mounted image. */
    method CropSave(imageMounted: bool, cropped: string) returns (saved: bool)
      modifies this
      ensures saved <==> old(completedCrop).Some? && imageMounted
      ensures saved ==> value == cropped && !showCropModal && originalImage.None?
      ensures !saved ==> value == old(value) && showCropModal == old(showCropModal) && originalImage == old(originalImage)
      ensures completedCrop == old(completedCrop) && isDragging == old(isDragging)
    {
      if completedCrop.None? || !imageMounted {
        saved := false;
        return;
      }
      value := cropped;
      showCropModal := false;
      originalImage := None;
      saved := true;
    }

    /** `handleRemovePhoto`: the photo becomes the empty string. */
    method RemovePhoto()
      modifies this
      ensures value == ""
      ensures showCropModal == old(showCropModal) && originalImage == old(originalImage)
      ensures completedCrop == old(completedCrop) && isDragging == old(isDragging)
    {
      value := "";
    }
  }
}
