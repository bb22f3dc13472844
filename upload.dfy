/**
 * The upload form of src/routes/Upload.tsx.
 *
 * Every `useState` cell of `Upload` is a field of UploadForm and every
 * handler a method that writes those fields in the order the handler calls
 * the setters. The `window.setTimeout` that stands in for the upload is a
 * table of pending handles: Submit arms one, CompleteProcessing is its
 * callback running, Unmount is the effect cleanup. `isValidUrl` (which asks
 * the browser's URL parser for an http or https URL) is an uninterpreted
 * predicate given at construction.
 */
module Upload {
  import opened Wrappers
  import Strings

  datatype UploadMethod = FileMethod | UrlMethod

  /** The `File` the picker or a drop hands over: its name and size in bytes. */
  datatype File = File(name: string, size: nat)

  /** `SubmissionDetails`. */
  datatype SubmissionDetails =
    | FileDetails(title: string, description: string, fileName: string, fileSize: nat)
    | UrlDetails(title: string, description: string, url: string)

  /** Which error cell a failed submit writes, and the message. */
  datatype FieldError = FileError(message: string) | UrlError(message: string)

  const NoFileMessage: string := "Please select a file to upload."
  const NoUrlMessage: string := "Please enter a URL to upload."
  const InvalidUrlMessage: string := "Please enter a valid URL."
  const UntitledTitle: string := "Untitled upload"
  /** The simulated processing time, in milliseconds. */
  const ProcessingDelay: nat := 2000

  /**
   * The validation of `handleSubmit`, in its order: the file method needs a
   * file; the URL method needs a non-empty trimmed URL, and then a valid one.
   */
  function SubmitError(activeMethod: UploadMethod, selectedFile: Option<File>, trimmedUrl: string, urlOk: bool)
    : (e: Option<FieldError>)
    ensures e.None? <==> (activeMethod == FileMethod && selectedFile.Some?)
                         || (activeMethod == UrlMethod && trimmedUrl != "" && urlOk)
    ensures e.Some? ==> (e.value.FileError? <==> activeMethod == FileMethod)
    ensures activeMethod == FileMethod && selectedFile.None? ==> e == Some(FileError(NoFileMessage))
    ensures activeMethod == UrlMethod && trimmedUrl == "" ==> e == Some(UrlError(NoUrlMessage))
    ensures activeMethod == UrlMethod && trimmedUrl != "" && !urlOk ==> e == Some(UrlError(InvalidUrlMessage))
  {
    match activeMethod
    case FileMethod => if selectedFile.None? then Some(FileError(NoFileMessage)) else None
    case UrlMethod =>
      if trimmedUrl == "" then Some(UrlError(NoUrlMessage))
      else if !urlOk then Some(UrlError(InvalidUrlMessage))
      else None
  }

  /**
   * `submissionTitle`: the trimmed title when it is not empty, else the file
   * name under the file method, else "Untitled upload".
   */
  function SubmissionTitle(title: string, activeMethod: UploadMethod, selectedFile: Option<File>): (t: string)
    ensures Strings.Trim(title) != "" ==> t == Strings.Trim(title)
    ensures Strings.Trim(title) == "" && activeMethod == FileMethod && selectedFile.Some? ==> t == selectedFile.value.name
    ensures Strings.Trim(title) == "" && (activeMethod == UrlMethod || selectedFile.None?) ==> t == UntitledTitle
  {
    var trimmed := Strings.Trim(title);
    if trimmed != "" then trimmed
    else if activeMethod == FileMethod && selectedFile.Some? then selectedFile.value.name
    else UntitledTitle
  }

  /** A title that is nothing but white space never becomes the submission title. */
  lemma {:induction false} BlankTitleFallsBack(title: string, activeMethod: UploadMethod, selectedFile: Option<File>)
    requires Strings.AllSpace(title)
    ensures SubmissionTitle(title, activeMethod, selectedFile)
            == (if activeMethod == FileMethod && selectedFile.Some? then selectedFile.value.name else UntitledTitle)
  {
    Strings.TrimEmptyIff(title);
  }

  /**
   * The details a successful submit records: those of the active method,
   * with the trimmed description and, for a URL, the trimmed URL.
   */
  function Details(activeMethod: UploadMethod, title: string, description: string,
                   selectedFile: Option<File>, urlValue: string): (d: SubmissionDetails)
    ensures d.title == SubmissionTitle(title, activeMethod, selectedFile)
    ensures d.description == Strings.Trim(description)
    ensures d.FileDetails? <==> activeMethod == FileMethod && selectedFile.Some?
    ensures d.FileDetails? ==> d.fileName == selectedFile.value.name && d.fileSize == selectedFile.value.size
    ensures d.UrlDetails? ==> d.url == Strings.Trim(urlValue)
  {
    var submissionTitle := SubmissionTitle(title, activeMethod, selectedFile);
    if activeMethod == FileMethod && selectedFile.Some? then
      FileDetails(submissionTitle, Strings.Trim(description), selectedFile.value.name, selectedFile.value.size)
    else
      UrlDetails(submissionTitle, Strings.Trim(description), Strings.Trim(urlValue))
  }

  /** What the file error cell shows after a submit whose validation gave `e`. */
  function FileErrorText(e: Option<FieldError>): Option<string>
  {
    if e.Some? && e.value.FileError? then Some(e.value.message) else None
  }

  /** What the URL error cell shows after a submit whose validation gave `e`. */
  function UrlErrorText(e: Option<FieldError>): Option<string>
  {
    if e.Some? && e.value.UrlError? then Some(e.value.message) else None
  }

  class UploadForm {
    const isValidUrl: string -> bool
    var activeMethod: UploadMethod
    var title: string
    var description: string
    var selectedFile: Option<File>
    var urlValue: string
    var fileError: Option<string>
    var urlError: Option<string>
    var isDragActive: bool
    var isSubmitting: bool
    var isProcessing: bool
    var isProcessed: bool
    var submissionDetails: Option<SubmissionDetails>
    /** `submitTimeoutRef.current`; it is never reset once set. */
    var submitTimeoutRef: Option<nat>
    /** The timeouts armed and not yet run or cleared. */
    var pending: set<nat>
    var nextHandle: nat

    /**
     * The form's invariant: the two busy flags move together, they are set
     * exactly while the completion timeout is pending, that timeout is the
     * one the ref holds, and a processed upload is not busy.
     */
    ghost predicate Valid()
      reads this
    {
      && isSubmitting == isProcessing
      && (isSubmitting <==> pending != {})
      && (pending != {} ==> submitTimeoutRef.Some? && pending == {submitTimeoutRef.value})
      && (isProcessed ==> !isSubmitting)
      && (forall h :: h in pending ==> h < nextHandle)
    }

    /** `methodToggleDisabled` and `submitDisabled`, which are the same expression. */
    predicate Busy()
      reads this
    {
      isSubmitting || isProcessing
    }

    constructor (isValidUrl: string -> bool)
      ensures Valid() && this.isValidUrl == isValidUrl
      ensures activeMethod == FileMethod && title == "" && description == ""
      ensures selectedFile.None? && urlValue == "" && fileError.None? && urlError.None?
      ensures !isDragActive && !isSubmitting && !isProcessing && !isProcessed
      ensures submissionDetails.None? && submitTimeoutRef.None? && pending == {}
    {
      this.isValidUrl := isValidUrl;
      activeMethod := FileMethod;
      title, description := "", "";
      selectedFile := None;
      urlValue := "";
      fileError, urlError := None, None;
      isDragActive := false;
      isSubmitting, isProcessing, isProcessed := false, false, false;
      submissionDetails := None;
      submitTimeoutRef := None;
      pending := {};
      nextHandle := 0;
    }

    /**
     * `handleMethodChange`: nothing while busy; otherwise select the method,
     * drop the details, the processed flag and both errors, and empty the
     * other method's input.
     */
    method MethodChange(m: UploadMethod)
      requires Valid()
      modifies this
      ensures Valid()
      ensures old(Busy()) ==> unchanged(this)
      ensures !old(Busy()) ==>
                && activeMethod == m && submissionDetails.None? && !isProcessed
                && fileError.None? && urlError.None?
                && (m == FileMethod ==> urlValue == "" && selectedFile == old(selectedFile))
                && (m == UrlMethod ==> selectedFile.None? && urlValue == old(urlValue))
                && title == old(title) && description == old(description)
                && isSubmitting == old(isSubmitting) && isProcessing == old(isProcessing)
                && isDragActive == old(isDragActive)
                && pending == old(pending) && submitTimeoutRef == old(submitTimeoutRef)
    {
      if Busy() {
        return;
      }
      activeMethod := m;
      submissionDetails := None;
      isProcessed := false;
      fileError := None;
      urlError := None;
      if m == FileMethod {
        urlValue := "";
      } else {
        selectedFile := None;
      }
    }

    /** `handleFileChange`: select the first picked file (or none), drop the details, the processed flag and the file error. */
    method FileChange(file: Option<File>)
      requires Valid()
      modifies this
      ensures Valid()
      ensures selectedFile == file && submissionDetails.None? && !isProcessed && fileError.None?
      ensures activeMethod == old(activeMethod) && urlValue == old(urlValue) && urlError == old(urlError)
      ensures title == old(title) && description == old(description) && isDragActive == old(isDragActive)
      ensures isSubmitting == old(isSubmitting) && isProcessing == old(isProcessing)
      ensures pending == old(pending) && submitTimeoutRef == old(submitTimeoutRef)
    {
      selectedFile := file;
      submissionDetails := None;
      isProcessed := false;
      fileError := None;
    }

    method DragOver()
      requires Valid()
      modifies this`isDragActive
      ensures Valid() && isDragActive
    {
      isDragActive := true;
    }

    method DragLeave()
      requires Valid()
      modifies this`isDragActive
      ensures Valid() && !isDragActive
    {
      isDragActive := false;
    }

    /**
     * `handleDrop`: a dropped file switches to the file method, selects it,
     * empties the URL and drops the details, the processed flag and the file
     * error; with or without a file the drag highlight ends.
     */
    method Drop(file: Option<File>)
      requires Valid()
      modifies this
      ensures Valid() && !isDragActive
      ensures file.Some? ==>
                && activeMethod == FileMethod && selectedFile == file && urlValue == ""
                && submissionDetails.None? && !isProcessed && fileError.None?
      ensures file.None? ==>
                && activeMethod == old(activeMethod) && selectedFile == old(selectedFile) && urlValue == old(urlValue)
                && submissionDetails == old(submissionDetails) && isProcessed == old(isProcessed)
                && fileError == old(fileError)
      ensures urlError == old(urlError) && title == old(title) && description == old(description)
      ensures isSubmitting == old(isSubmitting) && isProcessing == old(isProcessing)
      ensures pending == old(pending) && submitTimeoutRef == old(submitTimeoutRef)
    {
      if file.Some? {
        activeMethod := FileMethod;
        selectedFile := file;
        submissionDetails := None;
        isProcessed := false;
        fileError := None;
        urlValue := "";
      }
      isDragActive := false;
    }

    /** `handleUrlChange`: store the text, drop the details and the processed flag, and clear a URL error. */
    method UrlChange(value: string)
      requires Valid()
      modifies this
      ensures Valid()
      ensures urlValue == value && submissionDetails.None? && !isProcessed && urlError.None?
      ensures activeMethod == old(activeMethod) && selectedFile == old(selectedFile) && fileError == old(fileError)
      ensures title == old(title) && description == old(description) && isDragActive == old(isDragActive)
      ensures isSubmitting == old(isSubmitting) && isProcessing == old(isProcessing)
      ensures pending == old(pending) && submitTimeoutRef == old(submitTimeoutRef)
    {
      urlValue := value;
      submissionDetails := None;
      isProcessed := false;
      if urlError.Some? {
        urlError := None;
      }
    }

    method SetTitle(value: string)
      requires Valid()
      modifies this`title
      ensures Valid() && title == value
    {
      title := value;
    }

    method SetDescription(value: string)
      requires Valid()
      modifies this`description
      ensures Valid() && description == value
    {
      description := value;
    }

    /** The validation `handleSubmit` applies to the current inputs. */
    function SubmitCheck(): Option<FieldError>
      reads this
    {
      var trimmedUrl := Strings.Trim(urlValue);
      SubmitError(activeMethod, selectedFile, trimmedUrl, isValidUrl(trimmedUrl))
    }

    /**
     * `handleSubmit`: nothing while busy. Otherwise both errors and the
     * processed flag are cleared; a failed validation writes its message to
     * the active method's error and starts nothing; a passing one sets both
     * busy flags, records the details and arms the 2000 ms completion.
     */
    method Submit()
      requires Valid()
      modifies this
      ensures Valid()
      ensures old(Busy()) ==> unchanged(this)
      ensures !old(Busy()) ==> !isProcessed
      ensures !old(Busy()) ==> fileError == FileErrorText(old(SubmitCheck()))
      ensures !old(Busy()) ==> urlError == UrlErrorText(old(SubmitCheck()))
      ensures !old(Busy()) && old(SubmitCheck()).Some? ==>
                && !isSubmitting && !isProcessing && pending == {}
                && submissionDetails == old(submissionDetails) && submitTimeoutRef == old(submitTimeoutRef)
      ensures !old(Busy()) && old(SubmitCheck()).None? ==>
                && isSubmitting && isProcessing
                && submissionDetails == Some(Details(old(activeMethod), old(title), old(description), old(selectedFile), old(urlValue)))
                && submitTimeoutRef == Some(old(nextHandle)) && pending == {old(nextHandle)}
      ensures unchanged(this`activeMethod, this`selectedFile, this`urlValue, this`title, this`description, this`isDragActive)
    {
      if !Busy() {
        var e := SubmitCheck();
        Validate(e, Details(activeMethod, title, description, selectedFile, urlValue));
      }
    }

    /** `handleSubmit` past the busy guard, for the validation result `e` and the details `d` it would record. */
    method Validate(e: Option<FieldError>, d: SubmissionDetails)
      requires Valid() && !Busy()
      modifies this`fileError, this`urlError, this`isProcessed, this`pending, this`isSubmitting, this`isProcessing,
               this`submissionDetails, this`submitTimeoutRef, this`nextHandle
      ensures Valid() && !isProcessed
      ensures fileError == FileErrorText(e) && urlError == UrlErrorText(e)
      ensures e.Some? ==>
                && !isSubmitting && !isProcessing && pending == {}
                && submissionDetails == old(submissionDetails) && submitTimeoutRef == old(submitTimeoutRef)
      ensures e.None? ==>
                && isSubmitting && isProcessing && submissionDetails == Some(d)
                && submitTimeoutRef == Some(old(nextHandle)) && pending == {old(nextHandle)}
    {
      ShowErrors(e);
      if e.None? {
        StartProcessing(d);
      }
    }

    /** The first writes of `handleSubmit`: the processed flag clears and each error cell shows `e` when it is that cell's. */
    method ShowErrors(e: Option<FieldError>)
      requires Valid() && !Busy()
      modifies this`fileError, this`urlError, this`isProcessed
      ensures Valid() && !isProcessed
      ensures fileError == FileErrorText(e)
      ensures urlError == UrlErrorText(e)
    {
      fileError := None;
      urlError := None;
      isProcessed := false;
      if e.Some? {
        match e.value
        case FileError(message) => fileError := Some(message);
        case UrlError(message) => urlError := Some(message);
      }
    }

    /** The passing end of `handleSubmit`: clear the ref's timeout, set both busy flags, record the details, arm the completion. */
    method StartProcessing(details: SubmissionDetails)
      requires Valid() && !Busy() && !isProcessed
      modifies this`pending, this`isSubmitting, this`isProcessing, this`submissionDetails, this`submitTimeoutRef, this`nextHandle
      ensures Valid()
      ensures isSubmitting && isProcessing && submissionDetails == Some(details)
      ensures submitTimeoutRef == Some(old(nextHandle)) && pending == {old(nextHandle)}
    {
      if submitTimeoutRef.Some? {
        pending := pending - {submitTimeoutRef.value};
      }
      isSubmitting := true;
      isProcessing := true;
      submissionDetails := Some(details);
      submitTimeoutRef := Some(nextHandle);
      pending := pending + {nextHandle};
      nextHandle := nextHandle + 1;
    }

    /** The completion timeout `h` runs: both busy flags clear and the upload is processed. */
    method CompleteProcessing(h: nat)
      requires Valid() && h in pending
      modifies this`pending, this`isSubmitting, this`isProcessing, this`isProcessed
      ensures Valid()
      ensures !isSubmitting && !isProcessing && isProcessed && pending == {}
      ensures old(submitTimeoutRef) == Some(h) && submitTimeoutRef == old(submitTimeoutRef)
      ensures submissionDetails == old(submissionDetails) && activeMethod == old(activeMethod)
      ensures selectedFile == old(selectedFile) && urlValue == old(urlValue)
      ensures fileError == old(fileError) && urlError == old(urlError)
    {
      pending := pending - {h};
      isSubmitting := false;
      isProcessing := false;
      isProcessed := true;
    }

    /** `handleRemoveFile`: deselect the file and drop the details and the processed flag. */
    method RemoveFile()
      requires Valid()
      modifies this`selectedFile, this`submissionDetails, this`isProcessed
      ensures Valid()
      ensures selectedFile.None? && submissionDetails.None? && !isProcessed
      ensures activeMethod == old(activeMethod) && urlValue == old(urlValue)
      ensures fileError == old(fileError) && urlError == old(urlError)
      ensures isSubmitting == old(isSubmitting) && isProcessing == old(isProcessing)
      ensures pending == old(pending) && submitTimeoutRef == old(submitTimeoutRef)
    {
      selectedFile := None;
      submissionDetails := None;
      isProcessed := false;
    }

    /** The effect cleanup on unmount: the completion timeout, if pending, is cleared. */
    method Unmount()
      requires Valid()
      modifies this`pending
      ensures pending == {}
    {
      if submitTimeoutRef.Some? {
        pending := pending - {submitTimeoutRef.value};
      }
    }
  }

  /**
   * A file upload with a blank title: submit, then the completion runs. The
   * upload ends processed, not busy, titled by the file name, with the
   * trimmed description.
   */
  method SubmitFileExample(file: File, description: string) returns (isProcessed: bool, busy: bool, details: Option<SubmissionDetails>)
    ensures isProcessed && !busy
    ensures details == Some(FileDetails(file.name, Strings.Trim(description), file.name, file.size))
  {
    var form := new UploadForm(_ => true);
    form.FileChange(Some(file));
    form.SetTitle("  ");
    form.SetDescription(description);
    Strings.TrimEmptyIff("  ");
    assert form.SubmitCheck().None?;
    form.Submit();
    var h := form.submitTimeoutRef.value;
    form.CompleteProcessing(h);
    isProcessed, busy, details := form.isProcessed, form.Busy(), form.submissionDetails;
  }

  /**
   * A URL upload with an invalid URL: the URL error is set, no details are
   * recorded and nothing is armed; a second submit is allowed.
   */
  method InvalidUrlExample(url: string) returns (urlError: Option<string>, busy: bool, details: Option<SubmissionDetails>)
    requires Strings.Trim(url) != ""
    ensures urlError == Some(InvalidUrlMessage) && !busy && details.None?
  {
    var form := new UploadForm(_ => false);
    form.MethodChange(UrlMethod);
    form.UrlChange(url);
    assert form.SubmitCheck() == Some(UrlError(InvalidUrlMessage));
    form.Submit();
    urlError, busy, details := form.urlError, form.Busy(), form.submissionDetails;
  }

  /**
   * Removing the file while the upload is processing: the completion still
   * marks the upload processed, but the details are gone, so the page shows
   * no completion card (it needs both).
   */
  method RemoveWhileProcessingExample(file: File) returns (isProcessed: bool, details: Option<SubmissionDetails>)
    ensures isProcessed && details.None?
  {
    var form := new UploadForm(_ => true);
    form.FileChange(Some(file));
    assert form.SubmitCheck().None?;
    form.Submit();
    form.RemoveFile();
    var h := form.submitTimeoutRef.value;
    form.CompleteProcessing(h);
    isProcessed, details := form.isProcessed, form.submissionDetails;
  }
}
