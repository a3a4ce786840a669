/** `/api/admin/hero-slides`: the home page carousel's slides, readable and creatable by admins only. */
module HeroSlides {
  import opened Wrappers
  import opened Schema
  import opened Auth
  import opened Sorting

  datatype HeroSlide = HeroSlide(id: nat, title: string, subtitle: Option<string>, description: Option<string>,
                                 image: string, ctaText: string, ctaLink: string, isActive: bool, order: int)

  datatype SlideRequest = SlideRequest(title: Option<string>, subtitle: Option<string>,
                                       description: Option<string>, image: Option<string>,
                                       ctaText: Option<string>, ctaLink: Option<string>,
                                       isActive: Option<bool>, order: Option<int>)

  /** This route checks the caller itself: anyone but a signed-in admin gets 401, never 403. */
  predicate IsAdmin(auth: AuthResult) {
    auth.AuthOk? && auth.user.role == ADMIN
  }

  function SlideOrder(s: HeroSlide): int {
    s.order
  }

  /** GET: every slide, by ascending `order`. */
  function GetSlides(slides: seq<HeroSlide>, auth: AuthResult): (r: Response<seq<HeroSlide>>)
    ensures !IsAdmin(auth) ==> r == Err(401, "Unauthorized")
    ensures IsAdmin(auth) ==> r.Ok? && r.status == 200 && multiset(r.value) == multiset(slides)
  {
    if !IsAdmin(auth) then Err(401, "Unauthorized") else Ok(200, Sort(slides, ByKeyAsc(SlideOrder)))
  }

  predicate Present(x: Option<string>) {
    x.Some? && x.value != ""
  }

  predicate HasRequired(req: SlideRequest) {
    Present(req.title) && Present(req.image) && Present(req.ctaText) && Present(req.ctaLink)
  }

  /** POST: the four required fields, then the stored defaults. */
  function CreateSlide(slides: seq<HeroSlide>, auth: AuthResult, req: SlideRequest)
    : (r: (Response<HeroSlide>, seq<HeroSlide>))
    ensures !IsAdmin(auth) ==> r == (Err(401, "Unauthorized"), slides)
    ensures IsAdmin(auth) && !HasRequired(req) ==>
      r == (Err(400, "Title, image, CTA text, and CTA link are required"), slides)
    ensures r.0.Ok? <==> IsAdmin(auth) && HasRequired(req)
    ensures r.0.Ok? ==>
      var s := r.0.value;
      && r.0.status == 201
      && r.1 == slides + [s]
      && (forall i :: 0 <= i < |slides| ==> slides[i].id < s.id)
      && s.title == req.title.value && s.image == req.image.value
      && s.ctaText == req.ctaText.value && s.ctaLink == req.ctaLink.value
      && s.subtitle == NonEmptyOrNull(req.subtitle) && s.description == NonEmptyOrNull(req.description)
      && s.isActive == OrDefault(req.isActive, true)
      && s.order == IntOr(req.order, 0)
  {
    if !IsAdmin(auth) then (Err(401, "Unauthorized"), slides)
    else if !HasRequired(req) then (Err(400, "Title, image, CTA text, and CTA link are required"), slides)
    else
      var s := HeroSlide(NextId(slides, (x: HeroSlide) => x.id), req.title.value, NonEmptyOrNull(req.subtitle),
                         NonEmptyOrNull(req.description), req.image.value, req.ctaText.value, req.ctaLink.value,
                         OrDefault(req.isActive, true), IntOr(req.order, 0));
      (Ok(201, s), slides + [s])
  }

  /** The listing is the slides ordered by `order`, smallest first. */
  lemma SlidesInOrder(slides: seq<HeroSlide>, auth: AuthResult)
    requires IsAdmin(auth)
    ensures Sorted(GetSlides(slides, auth).value, ByKeyAsc(SlideOrder))
  {
    KeyOrdersArePreorders(SlideOrder);
    SortSorted(slides, ByKeyAsc(SlideOrder));
  }

  /** `isActive` falls back to true only when it is absent: an explicit false is stored as false.
      `order` falls back to 0 whenever it is falsy. */
  lemma DefaultsOnlyForAbsentFlag(slides: seq<HeroSlide>, auth: AuthResult, req: SlideRequest)
    requires IsAdmin(auth) && HasRequired(req)
    ensures CreateSlide(slides, auth, req.(isActive := Some(false))).0.value.isActive == false
    ensures CreateSlide(slides, auth, req.(isActive := None)).0.value.isActive == true
    ensures CreateSlide(slides, auth, req.(order := Some(0))).0.value.order == 0
    ensures CreateSlide(slides, auth, req.(order := None)).0.value.order == 0
  {
  }
}
