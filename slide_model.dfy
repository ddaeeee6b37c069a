/** The slides table of backend/models/Slide.js: insert, the two forms of
    the update (with and without a new image) and delete by id. */
module SlideModel {
  import opened Common
  import opened Schema

  function SlideIds(ss: seq<Slide>): set<int> { set k | 0 <= k < |ss| :: ss[k].id }

  // ---- addSlide ----

  /** The five values addSlide binds; None binds NULL. */
  datatype NewSlide = NewSlide(icon: Option<string>, title: Option<string>, description: Option<string>,
                               image: Option<Image>, alt: Option<string>)

  /** The VARCHAR(255) columns of slides: the title and the alt. */
  predicate SlideFits(title: string, alt: Option<string>) {
    FitsVarchar(title, 255) && FitsNullable(alt, 255)
  }

  /** addSlide: `INSERT INTO slides (icon, title, description, image, alt)`
      with the values as given; a NULL in a NOT NULL column or a title or
      alt wider than 255 is refused. The new row takes the next
      AUTO_INCREMENT id, which is insertId. */
  method AddSlide(db: Database, s: NewSlide, insertFails: bool) returns (r: Result<int, WriteError>)
    requires SlidesValid(db.slides, db.nextSlideId)
    modifies db`slides, db`nextSlideId
    ensures SlidesValid(db.slides, db.nextSlideId)
    ensures r.Err? <==> s.icon.None? || s.title.None? || s.description.None? || s.image.None? || insertFails
                        || !SlideFits(s.title.value, s.alt)
    ensures s.title.Some? && !SlideFits(s.title.value, s.alt) && s.icon.Some? && s.description.Some? && s.image.Some? ==>
      r == Err(DataTooLong)
    ensures r.Err? ==> db.slides == old(db.slides)
    ensures r.Ok? ==>
      && r.value == old(db.nextSlideId) && r.value !in SlideIds(old(db.slides))
      && db.slides == old(db.slides) + [Slide(r.value, s.icon.value, s.title.value, s.description.value, s.image.value, s.alt)]
  {
    if s.icon.None? || s.title.None? || s.description.None? || s.image.None? {
      return Err(NullColumn);
    }
    if !SlideFits(s.title.value, s.alt) {
      return Err(DataTooLong);
    }
    if insertFails {
      return Err(StoreFailed);
    }
    var id := db.nextSlideId;
    db.slides := db.slides + [Slide(id, s.icon.value, s.title.value, s.description.value, s.image.value, s.alt)];
    db.nextSlideId := id + 1;
    r := Ok(id);
  }

  // ---- updateSlides ----

  /** The values updateSlides writes. The controller only calls it with an
      icon, a title and a description present. */
  datatype SlideData = SlideData(icon: string, title: string, description: string, alt: Option<string>, image: Option<Image>)

  /** `image ? ... : ...`: a missing or empty image string selects the
      statement without the image column. */
  predicate WritesImage(d: SlideData) { !FalsyText(d.image) }

  /** The row after the chosen UPDATE has set its columns. */
  function UpdatedSlide(s: Slide, d: SlideData): Slide {
    if WritesImage(d) then s.(icon := d.icon, title := d.title, description := d.description, alt := d.alt, image := d.image.value)
    else s.(icon := d.icon, title := d.title, description := d.description, alt := d.alt)
  }

  /** `UPDATE slides SET ... WHERE id = ?`. */
  function UpdateSlideRows(ss: seq<Slide>, id: int, d: SlideData): (r: seq<Slide>)
    ensures |r| == |ss|
  {
    seq(|ss|, k requires 0 <= k < |ss| => if ss[k].id == id then UpdatedSlide(ss[k], d) else ss[k])
  }

  /** With an image the row of that id takes all five values; without one
      it takes the four others and keeps its image. The id and every other
      row are left alone. */
  lemma UpdateSlideExact(ss: seq<Slide>, id: int, d: SlideData, k: nat)
    requires k < |ss|
    ensures var s := UpdateSlideRows(ss, id, d)[k];
      if ss[k].id != id then s == ss[k]
      else
        && s.id == id && s.icon == d.icon && s.title == d.title && s.description == d.description && s.alt == d.alt
        && s.image == (if WritesImage(d) then d.image.value else ss[k].image)
  {
  }

  /** The update without an image leaves every stored image as it was. */
  lemma UpdateWithoutImageKeepsImages(ss: seq<Slide>, id: int, d: SlideData)
    requires !WritesImage(d)
    ensures forall k :: 0 <= k < |ss| ==> UpdateSlideRows(ss, id, d)[k].image == ss[k].image
  {
  }

  lemma UpdateSlideKeepsIds(ss: seq<Slide>, id: int, d: SlideData)
    ensures forall k :: 0 <= k < |ss| ==> UpdateSlideRows(ss, id, d)[k].id == ss[k].id
    ensures SlideIds(UpdateSlideRows(ss, id, d)) == SlideIds(ss)
  {
    var r := UpdateSlideRows(ss, id, d);
    assert forall k :: 0 <= k < |ss| ==> r[k].id == ss[k].id;
  }

  /** The rows `WHERE id = ?` matches, which is what affectedRows counts. */
  function MatchingSlides(ss: seq<Slide>, id: int): nat {
    if |ss| == 0 then 0 else (if ss[0].id == id then 1 else 0) + MatchingSlides(ss[1..], id)
  }

  /** Slide ids are unique, so a statement by id affects one row or none. */
  lemma {:induction false} MatchingSlidesOfUniqueIds(ss: seq<Slide>, next: int, id: int)
    requires SlidesValid(ss, next)
    ensures MatchingSlides(ss, id) == if id in SlideIds(ss) then 1 else 0
  {
    if |ss| > 0 {
      var rest := ss[1..];
      assert forall k :: 0 <= k < |rest| ==> rest[k] == ss[k + 1];
      MatchingSlidesOfUniqueIds(rest, next, id);
      assert SlideIds(ss) == {ss[0].id} + SlideIds(rest) by {
        forall x | x in SlideIds(ss) ensures x in {ss[0].id} + SlideIds(rest) {
          var k :| 0 <= k < |ss| && ss[k].id == x;
          if k > 0 { assert rest[k - 1].id == x; }
        }
      }
      if ss[0].id == id {
        assert id !in SlideIds(rest);
      }
    }
  }

  /** updateSlides: the statement with or without the image column, by
      id; affectedRows is 1 when the id exists and 0 otherwise. MySQL checks
      the widths as it writes the matching row, so a title or alt wider than
      255 is refused only when a row has that id. */
  method UpdateSlides(db: Database, id: int, d: SlideData, updateFails: bool) returns (r: Result<nat, WriteError>)
    requires SlidesValid(db.slides, db.nextSlideId)
    modifies db`slides
    ensures SlidesValid(db.slides, db.nextSlideId) && SlideIds(db.slides) == SlideIds(old(db.slides))
    ensures updateFails ==> r == Err(StoreFailed) && db.slides == old(db.slides)
    ensures !updateFails && id in SlideIds(old(db.slides)) && !SlideFits(d.title, d.alt) ==>
      r == Err(DataTooLong) && db.slides == old(db.slides)
    ensures !updateFails && (id !in SlideIds(old(db.slides)) || SlideFits(d.title, d.alt)) ==>
      && db.slides == UpdateSlideRows(old(db.slides), id, d)
      && r == Ok(if id in SlideIds(old(db.slides)) then 1 else 0)
  {
    if updateFails {
      return Err(StoreFailed);
    }
    if id in SlideIds(db.slides) && !SlideFits(d.title, d.alt) {
      return Err(DataTooLong);
    }
    MatchingSlidesOfUniqueIds(db.slides, db.nextSlideId, id);
    UpdateSlideKeepsIds(db.slides, id, d);
    r := Ok(MatchingSlides(db.slides, id));
    db.slides := UpdateSlideRows(db.slides, id, d);
  }

  // ---- deleteSlides ----

  /** `DELETE FROM slides WHERE id = ?`: every other row, in order. */
  function RemoveSlideRow(ss: seq<Slide>, id: int): (r: seq<Slide>)
    ensures forall s :: s in r <==> s in ss && s.id != id
  {
    FilterMembers(ss, (s: Slide) => s.id != id);
    Filter(ss, (s: Slide) => s.id != id)
  }

  lemma RemoveSlideIds(ss: seq<Slide>, id: int)
    ensures SlideIds(RemoveSlideRow(ss, id)) == SlideIds(ss) - {id}
  {
    var r := RemoveSlideRow(ss, id);
    forall x | x in SlideIds(r) ensures x in SlideIds(ss) - {id} {
      var k :| 0 <= k < |r| && r[k].id == x;
      assert r[k] in r;
      var j :| 0 <= j < |ss| && ss[j] == r[k];
    }
    forall x | x in SlideIds(ss) - {id} ensures x in SlideIds(r) {
      var k :| 0 <= k < |ss| && ss[k].id == x;
      assert ss[k] in r;
      var j :| 0 <= j < |r| && r[j] == ss[k];
    }
  }

  lemma {:induction false} RemoveSlideKeepsValid(ss: seq<Slide>, next: int, id: int)
    requires SlidesValid(ss, next)
    ensures SlidesValid(RemoveSlideRow(ss, id), next)
  {
    var r := RemoveSlideRow(ss, id);
    var keep := (s: Slide) => s.id != id;
    FilterSubsequence(ss, keep);
    var idx := FilterIndices(ss, keep);
    forall i, j | 0 <= i < j < |r| ensures r[i].id != r[j].id {
      assert r[i] == ss[idx[i]] && r[j] == ss[idx[j]];
    }
    forall i | 0 <= i < |r| ensures r[i].id < next {
      assert r[i] == ss[idx[i]];
    }
  }

  /** deleteSlides: affectedRows is 1 when the id existed and 0 otherwise. */
  method DeleteSlides(db: Database, id: int, deleteFails: bool) returns (r: Result<nat, WriteError>)
    requires SlidesValid(db.slides, db.nextSlideId)
    modifies db`slides
    ensures SlidesValid(db.slides, db.nextSlideId)
    ensures deleteFails ==> r == Err(StoreFailed) && db.slides == old(db.slides)
    ensures !deleteFails ==>
      && db.slides == RemoveSlideRow(old(db.slides), id)
      && SlideIds(db.slides) == SlideIds(old(db.slides)) - {id}
      && r == Ok(if id in SlideIds(old(db.slides)) then 1 else 0)
  {
    RemoveSlideIds(db.slides, id);
    if deleteFails {
      return Err(StoreFailed);
    }
    MatchingSlidesOfUniqueIds(db.slides, db.nextSlideId, id);
    RemoveSlideKeepsValid(db.slides, db.nextSlideId, id);
    r := Ok(MatchingSlides(db.slides, id));
    db.slides := RemoveSlideRow(db.slides, id);
  }
}
