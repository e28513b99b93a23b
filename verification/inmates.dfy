/**
 The record a county scraper emits for one listed inmate, the two county
 tags with their photo URL conventions, and the batch of one run: the
 Crawford County listings followed by the Sebastian County listings.

 What a scraper extracts from a page (the names, in page order, and each
 photo's src attribute, if any) is an input here: the model starts where
 the page has been read.
 */
module Inmates {
  import opened Identity

  datatype Option<T> = None | Some(value: T)

  /** One listing: {inmateId, name, imageUrl, county}. */
  datatype Inmate = Inmate(inmateId: string, name: string, imageUrl: string, county: string)

  const Crawford: string := "crawford"
  const Sebastian: string := "sebastian"

  /** The imageUrl of a listing whose page shows no photo. */
  const NoImage: string := "No Image"

  const CrawfordImageBase: string := "https://inmates.crawfordcountysheriff.org"
  const SebastianImageBase: string := "https://inmate.sebastiancountyar.gov/NewWorld.InmateInquiry/"

  /** The photo URL of a listing: the site's base followed by the src
      attribute of the photo, or the sentinel when there is no photo. The
      sentinel cannot be mistaken for a real photo URL when the base is longer
      than it, as both sites' bases are. */
  function ImageUrl(base: string, src: Option<string>): (url: string)
    ensures src.None? ==> url == NoImage
    ensures src.Some? ==> |url| == |base| + |src.value| && url[..|base|] == base && url[|base|..] == src.value
    ensures |base| > |NoImage| ==> (url == NoImage <==> src.None?)
  {
    match src
    case Some(s) => base + s
    case None => NoImage
  }

  /** A record as the scraper of `county` builds it: the id is generated from
      the name and the county tag. */
  predicate ListedBy(r: Inmate, county: string)
  {
    r.county == county && r.inmateId == InmateId(r.name, county)
  }

  /** The record the Crawford County scraper builds for one inmate. */
  function CrawfordRecord(name: string, imgSrc: Option<string>): (r: Inmate)
    ensures ListedBy(r, Crawford) && r.name == name
    ensures r.imageUrl == NoImage <==> imgSrc.None?
    ensures imgSrc.Some? ==> r.imageUrl == CrawfordImageBase + imgSrc.value
  {
    Inmate(InmateId(name, Crawford), name, ImageUrl(CrawfordImageBase, imgSrc), Crawford)
  }

  /** The record the Sebastian County scraper builds for one inmate. */
  function SebastianRecord(name: string, imgSrc: Option<string>): (r: Inmate)
    ensures ListedBy(r, Sebastian) && r.name == name
    ensures r.imageUrl == NoImage <==> imgSrc.None?
    ensures imgSrc.Some? ==> r.imageUrl == SebastianImageBase + imgSrc.value
  {
    Inmate(InmateId(name, Sebastian), name, ImageUrl(SebastianImageBase, imgSrc), Sebastian)
  }

  /** The set of ids that occur in a sequence of records. */
  function Ids(batch: seq<Inmate>): set<string>
  {
    set r | r in batch :: r.inmateId
  }

  /** The batch of one run, source-major: Crawford's listings in page order,
      then Sebastian's. */
  function ScrapedBatch(crawford: seq<Inmate>, sebastian: seq<Inmate>): (batch: seq<Inmate>)
    ensures |batch| == |crawford| + |sebastian|
    ensures batch[..|crawford|] == crawford && batch[|crawford|..] == sebastian
    ensures multiset(batch) == multiset(crawford) + multiset(sebastian)
  {
    crawford + sebastian
  }

  /** The ids of a batch are the ids of its two parts. */
  lemma ScrapedBatchIds(crawford: seq<Inmate>, sebastian: seq<Inmate>)
    ensures Ids(ScrapedBatch(crawford, sebastian)) == Ids(crawford) + Ids(sebastian)
  {
    var batch := ScrapedBatch(crawford, sebastian);
    forall id | id in Ids(batch)
      ensures id in Ids(crawford) + Ids(sebastian)
    {
      var r :| r in batch && r.inmateId == id;
      assert r in crawford || r in sebastian;
    }
  }

  /** A Crawford County listing and a Sebastian County listing never share
      an id, so neither county's inmates can hide the other's. */
  lemma CountyIdsDisjoint(crawford: seq<Inmate>, sebastian: seq<Inmate>)
    requires forall r :: r in crawford ==> ListedBy(r, Crawford)
    requires forall r :: r in sebastian ==> ListedBy(r, Sebastian)
    ensures Ids(crawford) !! Ids(sebastian)
  {
    forall a, b | a in crawford && b in sebastian
      ensures a.inmateId != b.inmateId
    {
      CountiesNeverCollide(a.name, b.name);
    }
  }
}
