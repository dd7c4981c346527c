/**
 * The image uploader: the chosen files and their preview URLs as two
 * parallel lists, capped at `maxImages`, with removal by index and the
 * sequential per-image text extraction.
 */
module Upload {
  import opened Wrappers
  import opened Paper

  /** A chosen image file; only its identity matters here. */
  datatype ImageFile = ImageFile(name: string)

  // ----- Adding files -----

  /**
   * The files of `incoming` the capped `forEach` admits when the list
   * already holds `count` files: each file is pushed while the list is
   * shorter than `cap`, visiting `incoming` in order.
   */
  function Admitted(count: nat, incoming: seq<ImageFile>, cap: int): (a: seq<ImageFile>)
    ensures |a| <= |incoming|
    ensures count < cap && |incoming| > 0 ==> |a| > 0
    decreases |incoming|
  {
    if |incoming| == 0 then []
    else
      var before := Admitted(count, incoming[..|incoming| - 1], cap);
      if count + |before| < cap then before + [incoming[|incoming| - 1]] else before
  }

  /** How many of `n` files are admitted to a list holding `count` files under the cap. */
  function AdmittedCount(count: nat, n: nat, cap: int): nat {
    if cap <= count then 0 else if n <= cap - count then n else cap - count
  }

  /**
   * The admitted files are the first ones of `incoming`, as many as fit
   * under the cap: later files never overtake earlier ones.
   */
  lemma {:induction false} AdmittedIsPrefix(count: nat, incoming: seq<ImageFile>, cap: int)
    ensures Admitted(count, incoming, cap) == incoming[..AdmittedCount(count, |incoming|, cap)]
    decreases |incoming|
  {
    if |incoming| > 0 {
      var init := incoming[..|incoming| - 1];
      AdmittedIsPrefix(count, init, cap);
      assert init[..AdmittedCount(count, |init|, cap)] == incoming[..AdmittedCount(count, |init|, cap)];
    }
  }

  /** A list that starts within the cap stays within it; one at or over the cap admits nothing. */
  lemma AdmittedWithinCap(count: nat, incoming: seq<ImageFile>, cap: int)
    ensures count <= cap ==> count + |Admitted(count, incoming, cap)| <= cap
    ensures cap <= count ==> Admitted(count, incoming, cap) == []
    ensures count + |incoming| <= cap ==> Admitted(count, incoming, cap) == incoming
  {
    AdmittedIsPrefix(count, incoming, cap);
  }

  /** One preview URL per admitted file, from the object-URL oracle. */
  function PreviewUrls(files: seq<ImageFile>, createUrl: ImageFile -> string): (urls: seq<string>)
    ensures |urls| == |files| && forall i :: 0 <= i < |files| ==> urls[i] == createUrl(files[i])
  {
    seq(|files|, i requires 0 <= i < |files| => createUrl(files[i]))
  }

  // ----- Removing a file -----

  /**
   * `s.splice(start, 1)` on a copy: a negative start counts from the end
   * (clamped at 0), and a start at or past the end removes nothing.
   */
  function SpliceOne<T>(s: seq<T>, start: int): (r: seq<T>)
    ensures |r| == |s| || |r| == |s| - 1
    ensures start >= |s| ==> r == s
    ensures multiset(r) <= multiset(s)
  {
    var k := if start < 0 then (if |s| + start < 0 then 0 else |s| + start) else start;
    if k < |s| then
      assert s == s[..k] + [s[k]] + s[k + 1..];
      s[..k] + s[k + 1..]
    else s
  }

  /**
   * Removing index `k` of the list deletes exactly element `k`: the
   * elements before it keep their positions, the ones after move down by
   * one, and the removed element is the only one missing.
   */
  lemma SpliceOneRemoves<T>(s: seq<T>, k: int)
    requires 0 <= k < |s|
    ensures |SpliceOne(s, k)| == |s| - 1
    ensures forall j :: 0 <= j < k ==> SpliceOne(s, k)[j] == s[j]
    ensures forall j :: k <= j < |s| - 1 ==> SpliceOne(s, k)[j] == s[j + 1]
    ensures multiset(SpliceOne(s, k)) + multiset{s[k]} == multiset(s)
  {
    assert s == s[..k] + [s[k]] + s[k + 1..];
  }

  /** An index past the end removes nothing. */
  lemma SpliceOnePastEnd<T>(s: seq<T>, k: int)
    requires k >= |s|
    ensures SpliceOne(s, k) == s
  {
  }

  /** The length after a splice depends only on the length before, so parallel lists stay parallel. */
  lemma SpliceOneLength<T, U>(s: seq<T>, t: seq<U>, k: int)
    requires |s| == |t|
    ensures |SpliceOne(s, k)| == |SpliceOne(t, k)|
    ensures |SpliceOne(s, k)| == |s| || |SpliceOne(s, k)| == |s| - 1
  {
  }

  // ----- Extracting text -----

  /**
   * The requests made one file after another: the texts in file order when
   * every request succeeds, otherwise the error of the first that fails
   * (later files are not sent).
   */
  function ExtractAll(files: seq<ImageFile>, language: Language, extract: (ImageFile, Language) -> Result<string, nat>): (r: Result<seq<string>, nat>)
    ensures r.Success? ==> |r.value| == |files|
    ensures r.Failure? ==> exists i :: 0 <= i < |files| && extract(files[i], language) == Failure(r.error)
    decreases |files|
  {
    if |files| == 0 then Success([])
    else match ExtractAll(files[..|files| - 1], language, extract)
      case Failure(e) => Failure(e)
      case Success(texts) =>
        match extract(files[|files| - 1], language)
        case Failure(e) => Failure(e)
        case Success(t) => Success(texts + [t])
  }

  /**
   * All or nothing: the extraction succeeds exactly when every request
   * does, and then yields one text per file, in file order.
   */
  lemma {:induction false} ExtractAllSucceeds(files: seq<ImageFile>, language: Language, extract: (ImageFile, Language) -> Result<string, nat>)
    ensures ExtractAll(files, language, extract).Success? <==>
      forall i :: 0 <= i < |files| ==> extract(files[i], language).Success?
    ensures ExtractAll(files, language, extract).Success? ==>
      |ExtractAll(files, language, extract).value| == |files| &&
      forall i :: 0 <= i < |files| ==> ExtractAll(files, language, extract).value[i] == extract(files[i], language).value
    decreases |files|
  {
    if |files| > 0 {
      var init := files[..|files| - 1];
      ExtractAllSucceeds(init, language, extract);
      assert forall i :: 0 <= i < |init| ==> init[i] == files[i];
    }
  }

  /** A failure reports the error of the first failing request. */
  lemma {:induction false} ExtractAllFirstFailure(files: seq<ImageFile>, language: Language, extract: (ImageFile, Language) -> Result<string, nat>, k: nat)
    requires k < |files| && extract(files[k], language).Failure?
    requires forall i :: 0 <= i < k ==> extract(files[i], language).Success?
    ensures ExtractAll(files, language, extract) == Failure(extract(files[k], language).error)
    decreases |files|
  {
    var init := files[..|files| - 1];
    if k < |init| {
      ExtractAllFirstFailure(init, language, extract, k);
    } else {
      ExtractAllSucceeds(init, language, extract);
    }
  }

  /** Once a prefix has failed, every longer prefix fails with the same error. */
  lemma {:induction false} FailureSticks(files: seq<ImageFile>, language: Language, extract: (ImageFile, Language) -> Result<string, nat>, k: nat)
    requires k <= |files| && ExtractAll(files[..k], language, extract).Failure?
    ensures ExtractAll(files, language, extract) == ExtractAll(files[..k], language, extract)
    decreases |files| - k
  {
    if k < |files| {
      assert files[..k + 1][..k] == files[..k];
      FailureSticks(files, language, extract, k + 1);
    } else {
      assert files[..k] == files;
    }
  }

  /** What an extraction run ends in: no files, texts handed on, or an alert after a failed request. */
  datatype Extraction = NothingToDo | Delivered(texts: seq<string>) | Failed(status: nat)

  /** The process button is disabled while no file is chosen or the wizard reports processing. */
  predicate ProcessDisabled(selectedCount: nat, isProcessing: bool) {
    selectedCount == 0 || isProcessing
  }

  class ImageUploader {
    const maxImages: int
    const language: Language
    var selectedFiles: seq<ImageFile>
    var previews: seq<string>
    var processingImage: Option<nat>

    /** One preview per chosen file, and never more files than a non-negative cap allows. */
    ghost predicate Valid()
      reads this
    {
      && |selectedFiles| == |previews|
      && (maxImages >= 0 ==> |selectedFiles| <= maxImages)
    }

    constructor(maxImages: int, language: Language)
      ensures Valid()
      ensures this.maxImages == maxImages && this.language == language
      ensures selectedFiles == [] && previews == [] && processingImage == None
    {
      this.maxImages := maxImages;
      this.language := language;
      selectedFiles := [];
      previews := [];
      processingImage := None;
    }

    /**
     * `handleFileChange`: an event without files changes nothing and calls
     * no callback; otherwise the admitted files and their previews are
     * appended and the new list is handed to `onImagesSelected`.
     */
    method HandleFileChange(files: seq<ImageFile>, createUrl: ImageFile -> string) returns (selected: Option<seq<ImageFile>>)
      requires Valid()
      modifies this
      ensures Valid()
      ensures |files| == 0 ==> selected == None && selectedFiles == old(selectedFiles) && previews == old(previews)
      ensures |files| > 0 ==>
        var admitted := Admitted(|old(selectedFiles)|, files, maxImages);
        && selectedFiles == old(selectedFiles) + admitted
        && previews == old(previews) + PreviewUrls(admitted, createUrl)
        && selected == Some(selectedFiles)
      ensures processingImage == old(processingImage)
    {
      if |files| == 0 {
        return None;
      }
      var newFiles := selectedFiles;
      var newPreviews := previews;
      ghost var admitted: seq<ImageFile> := [];
      var i := 0;
      while i < |files|
        invariant 0 <= i <= |files|
        invariant admitted == Admitted(|selectedFiles|, files[..i], maxImages)
        invariant newFiles == selectedFiles + admitted
        invariant newPreviews == previews + PreviewUrls(admitted, createUrl)
        invariant maxImages >= 0 ==> |newFiles| <= maxImages
      {
        assert files[..i + 1][..i] == files[..i];
        if |newFiles| < maxImages {
          newFiles := newFiles + [files[i]];
          newPreviews := newPreviews + [createUrl(files[i])];
          admitted := admitted + [files[i]];
        }
        i := i + 1;
      }
      assert files[..i] == files;
      selectedFiles := newFiles;
      previews := newPreviews;
      selected := Some(newFiles);
    }

    /**
     * `removeImage`: the file and its preview at `index` are spliced out
     * of both lists and the new list is handed to `onImagesSelected`.
     */
    method RemoveImage(index: int) returns (selected: seq<ImageFile>)
      requires Valid()
      modifies this
      ensures Valid()
      ensures selectedFiles == SpliceOne(old(selectedFiles), index)
      ensures previews == SpliceOne(old(previews), index)
      ensures selected == selectedFiles && processingImage == old(processingImage)
    {
      SpliceOneLength(selectedFiles, previews, index);
      selectedFiles := SpliceOne(selectedFiles, index);
      previews := SpliceOne(previews, index);
      selected := selectedFiles;
    }

    /**
     * `processImagesWithAI`: with no files nothing happens; otherwise the
     * files are sent one at a time, marking the one in flight, and the
     * texts are handed on only when every request succeeded. The marker is
     * cleared at the end either way.
     */
    method ProcessImagesWithAI(extract: (ImageFile, Language) -> Result<string, nat>) returns (outcome: Extraction)
      modifies this
      ensures |selectedFiles| == 0 ==> outcome == NothingToDo
      ensures |selectedFiles| > 0 ==> outcome == match ExtractAll(selectedFiles, language, extract)
        case Success(texts) => Delivered(texts)
        case Failure(e) => Failed(e)
      ensures selectedFiles == old(selectedFiles) && previews == old(previews)
      ensures |selectedFiles| > 0 ==> processingImage == None
      ensures |selectedFiles| == 0 ==> processingImage == old(processingImage)
    {
      if |selectedFiles| == 0 {
        return NothingToDo;
      }
      var extractedTexts: seq<string> := [];
      var i := 0;
      outcome := NothingToDo;
      while i < |selectedFiles|
        invariant 0 <= i <= |selectedFiles|
        invariant selectedFiles == old(selectedFiles) && previews == old(previews)
        invariant ExtractAll(selectedFiles[..i], language, extract) == Success(extractedTexts)
      {
        processingImage := Some(i);
        assert selectedFiles[..i + 1][..i] == selectedFiles[..i];
        var response := extract(selectedFiles[i], language);
        if response.Failure? {
          FailureSticks(selectedFiles, language, extract, i + 1);
          outcome := Failed(response.error);
          processingImage := None;
          return;
        }
        extractedTexts := extractedTexts + [response.value];
        i := i + 1;
      }
      assert selectedFiles[..i] == selectedFiles;
      outcome := Delivered(extractedTexts);
      processingImage := None;
    }
  }
}
