/** backend/controllers/slideController.js: the request checks in front of
    the slides table and how its outcomes become status codes. An uploaded
    file is given by its contents as the binary string the controller
    converts it to. */
module SlideController {
  import opened Common
  import opened Schema
  import opened SlideModel

  /** The multipart form fields, each absent (None) or a string, and the
      uploaded file, if any. */
  datatype SlideForm = SlideForm(icon: Option<string>, title: Option<string>, description: Option<string>,
                                 alt: Option<string>, file: Option<Image>)

  datatype SlideReply =
    | Created(slideId: int)
    | Answer(status: nat, text: string)

  function ReplyStatus(r: SlideReply): nat {
    match r
    case Created(_) => 201
    case Answer(status, _) => status
  }

  const AllFieldsRequired: SlideReply := Answer(400, "All fields are required")

  /** addSlide refuses a form without a title, a description or a file. An
      uploaded file always counts as present, even an empty one. */
  predicate AddFormIncomplete(f: SlideForm) { FalsyText(f.title) || FalsyText(f.description) || f.file.None? }

  /** addSlide: the check, then the insert with the fields as the form has
      them. The icon is not checked here; a missing one reaches the NOT NULL
      column and the insert fails, as does a title or alt wider than its
      column. */
  method AddSlide(db: Database, f: SlideForm, insertFails: bool) returns (reply: SlideReply)
    requires SlidesValid(db.slides, db.nextSlideId)
    modifies db`slides, db`nextSlideId
    ensures SlidesValid(db.slides, db.nextSlideId)
    ensures AddFormIncomplete(f) ==> reply == AllFieldsRequired && db.slides == old(db.slides)
    ensures !AddFormIncomplete(f) && (f.icon.None? || insertFails || !SlideFits(f.title.value, f.alt)) ==>
      reply == Answer(500, "Failed to add slide") && db.slides == old(db.slides)
    ensures reply.Created? <==> !AddFormIncomplete(f) && f.icon.Some? && !insertFails && SlideFits(f.title.value, f.alt)
    ensures reply.Created? ==>
      && reply.slideId == old(db.nextSlideId)
      && db.slides == old(db.slides) + [Slide(reply.slideId, f.icon.value, f.title.value, f.description.value, f.file.value, f.alt)]
  {
    if AddFormIncomplete(f) {
      return AllFieldsRequired;
    }
    var r := SlideModel.AddSlide(db, NewSlide(f.icon, f.title, f.description, f.file, f.alt), insertFails);
    if r.Err? {
      return Answer(500, "Failed to add slide");
    }
    return Created(r.value);
  }

  /** updateSlide refuses a form without an icon, a title or a description;
      the file is optional. */
  predicate UpdateFormIncomplete(f: SlideForm) { FalsyText(f.icon) || FalsyText(f.title) || FalsyText(f.description) }

  /** `alt || null`: an absent or empty alt is stored as NULL. */
  function AltOrNull(alt: Option<string>): (r: Option<string>)
    ensures r.None? <==> FalsyText(alt)
    ensures r.Some? ==> r == alt
  {
    if FalsyText(alt) then None else alt
  }

  /** The values handed to updateSlides; no file gives a NULL image. */
  function UpdateData(f: SlideForm): SlideData
    requires !UpdateFormIncomplete(f)
  {
    SlideData(f.icon.value, f.title.value, f.description.value, AltOrNull(f.alt), f.file)
  }

  /** Without an uploaded file (or with an empty one) the stored image stays;
      with one it is replaced. */
  lemma UpdateKeepsImageWithoutFile(f: SlideForm)
    requires !UpdateFormIncomplete(f)
    ensures WritesImage(UpdateData(f)) <==> f.file.Some? && f.file.value != ""
    ensures WritesImage(UpdateData(f)) ==> UpdateData(f).image == f.file
    ensures UpdateData(f).alt == AltOrNull(f.alt)
  {
  }

  /** Status codes of a statement by id: 500 on a failure, 404 when no row
      was affected, 200 otherwise. */
  function ByIdReply(r: Result<nat, WriteError>, failure: string, success: string): (reply: SlideReply)
    ensures reply.Answer?
    ensures r.Err? ==> reply == Answer(500, failure)
    ensures r == Ok(0) ==> reply == Answer(404, "Slide not found")
    ensures r.Ok? && r.value != 0 ==> reply == Answer(200, success)
  {
    match r
    case Err(_) => Answer(500, failure)
    case Ok(affected) => if affected == 0 then Answer(404, "Slide not found") else Answer(200, success)
  }

  method UpdateSlide(db: Database, slideId: int, f: SlideForm, updateFails: bool) returns (reply: SlideReply)
    requires SlidesValid(db.slides, db.nextSlideId)
    modifies db`slides
    ensures SlidesValid(db.slides, db.nextSlideId) && SlideIds(db.slides) == SlideIds(old(db.slides))
    ensures UpdateFormIncomplete(f) ==> reply == AllFieldsRequired && db.slides == old(db.slides)
    ensures !UpdateFormIncomplete(f) && updateFails ==>
      reply == Answer(500, "Failed to update slide") && db.slides == old(db.slides)
    ensures !UpdateFormIncomplete(f) && !updateFails && slideId in SlideIds(old(db.slides))
            && !SlideFits(f.title.value, AltOrNull(f.alt)) ==>
      reply == Answer(500, "Failed to update slide") && db.slides == old(db.slides)
    ensures !UpdateFormIncomplete(f) && !updateFails
            && (slideId !in SlideIds(old(db.slides)) || SlideFits(f.title.value, AltOrNull(f.alt))) ==>
      && db.slides == UpdateSlideRows(old(db.slides), slideId, UpdateData(f))
      && (reply == Answer(404, "Slide not found") <==> slideId !in SlideIds(old(db.slides)))
      && (reply == Answer(200, "Slide updated successfully") <==> slideId in SlideIds(old(db.slides)))
  {
    if UpdateFormIncomplete(f) {
      return AllFieldsRequired;
    }
    var r := UpdateSlides(db, slideId, UpdateData(f), updateFails);
    reply := ByIdReply(r, "Failed to update slide", "Slide updated successfully");
  }

  method DeleteSlide(db: Database, slideId: int, deleteFails: bool) returns (reply: SlideReply)
    requires SlidesValid(db.slides, db.nextSlideId)
    modifies db`slides
    ensures SlidesValid(db.slides, db.nextSlideId)
    ensures deleteFails ==> reply == Answer(500, "Failed to delete slide") && db.slides == old(db.slides)
    ensures !deleteFails ==>
      && db.slides == RemoveSlideRow(old(db.slides), slideId)
      && (reply == Answer(404, "Slide not found") <==> slideId !in SlideIds(old(db.slides)))
      && (reply == Answer(200, "Slide deleted successfully") <==> slideId in SlideIds(old(db.slides)))
  {
    var r := DeleteSlides(db, slideId, deleteFails);
    reply := ByIdReply(r, "Failed to delete slide", "Slide deleted successfully");
  }
}
