/**
 * The `ads` row and the content a client supplies for a new ad
 * (src/models/ad.rs, src/db/schema.rs).
 */
module Ads {
  import opened Wrappers
  import opened Ints

  /** `BigDecimal` / `NUMERIC`: an exact decimal, so a `real` here. */
  type Decimal = real

  /** `chrono::NaiveDateTime`: a point on a time line without a zone, as a tick count. */
  type Timestamp = int

  /** One row of the `ads` table; `images` is the JSONB array of image ids. */
  datatype Ad = Ad(
    id: int32,
    title: string,
    description: string,
    price: Decimal,
    status: string,
    userEmail: string,
    userPhone: string,
    createdAt: Timestamp,
    updatedAt: Timestamp,
    topAd: bool,
    images: seq<string>)

  /** What the client supplies for a new ad. */
  datatype AdContent = AdContent(
    title: string,
    description: string,
    price: Decimal,
    userEmail: string,
    userPhone: string,
    topAd: bool)

  /** Lifecycle tag every new ad starts with. */
  const ACTIVE: string := "active"

  /** `VARCHAR(n)` bounds of the schema: title 255, status 50, user_email 255, user_phone 50. */
  predicate FitsSchema(ad: Ad) {
    |ad.title| <= 255 && |ad.status| <= 50 && |ad.userEmail| <= 255 && |ad.userPhone| <= 50
  }

  /**
   * Assignment of a string to a `VARCHAR(n)` column: a longer string is
   * refused unless every character beyond the first `n` is a space, in which
   * case it is stored cut to its first `n` characters.
   */
  function ToVarchar(s: string, n: nat): (r: Option<string>)
    ensures r.Some? <==> forall i :: n <= i < |s| ==> s[i] == ' '
    ensures r.Some? ==> |r.value| == (if |s| <= n then |s| else n) && r.value <= s
    ensures |s| <= n ==> r == Some(s)
  {
    if |s| <= n then Some(s)
    else if forall i :: n <= i < |s| ==> s[i] == ' ' then Some(s[..n])
    else None
  }

  /** A value of exactly the column's length followed by spaces is stored without the spaces. */
  lemma TrailingSpacesCut(s: string, pad: string, n: nat)
    requires |s| == n
    requires forall i :: 0 <= i < |pad| ==> pad[i] == ' '
    ensures ToVarchar(s + pad, n) == Some(s)
  {
    var t := s + pad;
    forall i | n <= i < |t| ensures t[i] == ' ' {
      assert t[i] == pad[i - n];
    }
    if pad == [] {
      assert t == s;
    } else {
      assert t[..n] == s;
    }
  }

  /**
   * The row as the table stores it: each `VARCHAR` column assigned through
   * `ToVarchar`, the other columns as given. `None` when any of them is refused.
   */
  function StoredAd(ad: Ad): (r: Option<Ad>)
    ensures r.Some? <==>
              && ToVarchar(ad.title, 255).Some? && ToVarchar(ad.status, 50).Some?
              && ToVarchar(ad.userEmail, 255).Some? && ToVarchar(ad.userPhone, 50).Some?
    ensures r.Some? ==>
              && FitsSchema(r.value)
              && r.value.title == ToVarchar(ad.title, 255).value
              && r.value.status == ToVarchar(ad.status, 50).value
              && r.value.userEmail == ToVarchar(ad.userEmail, 255).value
              && r.value.userPhone == ToVarchar(ad.userPhone, 50).value
              && r.value.id == ad.id && r.value.description == ad.description
              && r.value.price == ad.price && r.value.createdAt == ad.createdAt
              && r.value.updatedAt == ad.updatedAt && r.value.topAd == ad.topAd
              && r.value.images == ad.images
    ensures FitsSchema(ad) ==> r == Some(ad)
  {
    var title := ToVarchar(ad.title, 255);
    var status := ToVarchar(ad.status, 50);
    var email := ToVarchar(ad.userEmail, 255);
    var phone := ToVarchar(ad.userPhone, 50);
    if title.Some? && status.Some? && email.Some? && phone.Some? then
      Some(ad.(title := title.value, status := status.value, userEmail := email.value, userPhone := phone.value))
    else None
  }

  /** The client-supplied strings are accepted by their columns (`status` is always `active`, which is). */
  predicate ContentFits(content: AdContent) {
    && ToVarchar(content.title, 255).Some?
    && ToVarchar(content.userEmail, 255).Some?
    && ToVarchar(content.userPhone, 50).Some?
  }
}
