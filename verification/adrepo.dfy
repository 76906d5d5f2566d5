/**
 * The in-memory ad repositories. `AdRepo` is the map-backed store of
 * homework08 and homework09 (the two differ only in the sense of the
 * list filter's first flag and in homework09's delete); `AdRepo06` is the
 * slice-backed store of homework06. Every operation is a pure transition:
 * it takes the state and returns the new state with the result. A done
 * context is the `cancelled` flag; the mutexes vanish in a sequential model.
 */
module AdRepo {
  import opened Wrappers
  import opened GoStrings
  import opened Ads

  /** `AdRepository`: the stored ads by ID and the next ID to hand out. */
  datatype Repo = Repo(data: map<int, Ad>, freeID: int)

  /** Every stored ad sits under its own ID, and that ID was handed out already. */
  predicate Inv(r: Repo) {
    0 <= r.freeID && forall k :: k in r.data ==> 0 <= k < r.freeID && r.data[k].id == k
  }

  /** Without deletion, every ID handed out is still present. */
  predicate Dense(r: Repo) {
    Inv(r) && forall k :: 0 <= k < r.freeID ==> k in r.data
  }

  /** `New`: an empty store whose first ID is 0. */
  function New(): (r: Repo)
    ensures Dense(r) && |r.data| == 0 && r.freeID == 0
  {
    Repo(map[], 0)
  }

  /** `GetAdByID`: the stored ad, or `AdNotExist`. */
  function GetAdByID(r: Repo, cancelled: bool, id: int): (res: Result<Ad, Err>)
    ensures cancelled ==> res == Failure(AdRepositoryError)
    ensures !cancelled ==> (res.Success? <==> id in r.data)
    ensures !cancelled && id !in r.data ==> res == Failure(AdNotExist)
    ensures res.Success? ==> res.value == r.data[id]
    ensures Inv(r) && res.Success? ==> res.value.id == id
  {
    if cancelled then Failure(AdRepositoryError)
    else if id !in r.data then Failure(AdNotExist)
    else Success(r.data[id])
  }

  /** `AddAd`: stores the ad under `freeID`, with its ID overwritten, and advances `freeID`. */
  function AddAd(r: Repo, cancelled: bool, ad: Ad): (out: (Repo, Result<Ad, Err>))
    ensures cancelled ==> out == (r, Failure(AdRepositoryError))
    ensures !cancelled ==> out.1 == Success(ad.(id := r.freeID))
    ensures !cancelled ==> out.0 == Repo(r.data[r.freeID := ad.(id := r.freeID)], r.freeID + 1)
    ensures Inv(r) && out.1.Success? ==> out.1.value.id !in r.data
    ensures Inv(r) ==> Inv(out.0)
    ensures Dense(r) ==> Dense(out.0)
  {
    if cancelled then (r, Failure(AdRepositoryError))
    else
      var stored := ad.(id := r.freeID);
      (Repo(r.data[r.freeID := stored], r.freeID + 1), Success(stored))
  }

  /**
   * `UpdateAdFields`: replaces every field of the stored ad by `newAd`'s,
   * keeping the ID; an absent ID gives `AdNotExist`.
   */
  function UpdateAdFields(r: Repo, cancelled: bool, id: int, newAd: Ad): (out: (Repo, Result<Ad, Err>))
    ensures cancelled ==> out == (r, Failure(AdRepositoryError))
    ensures !cancelled && id !in r.data ==> out == (r, Failure(AdNotExist))
    ensures !cancelled && id in r.data ==>
              out.1 == Success(newAd.(id := id)) && out.0 == r.(data := r.data[id := newAd.(id := id)])
    ensures out.0.freeID == r.freeID && out.0.data.Keys == r.data.Keys
    ensures Inv(r) ==> Inv(out.0)
    ensures Dense(r) ==> Dense(out.0)
  {
    if cancelled then (r, Failure(AdRepositoryError))
    else if id !in r.data then (r, Failure(AdNotExist))
    else
      var ad := Ad(id, newAd.title, newAd.text, newAd.authorID, newAd.published,
                   newAd.creationDate, newAd.updateDate);
      (r.(data := r.data[id := ad]), Success(ad))
  }

  /** The three `continue` tests of homework09's `GetAdsList`, none of which fires. */
  predicate Listed(f: Filter, ad: Ad) {
    !(!f.publishedBy && !ad.published) &&
    !(f.dateBy && ad.creationDate != f.date) &&
    !(f.authorBy && ad.authorID != f.authorID)
  }

  /**
   * `GetAdsList` of homework09: the stored ads that pass the filter. Go's
   * map order is unspecified, so the result is a set.
   */
  function GetAdsList(r: Repo, cancelled: bool, f: Filter): (res: Result<set<Ad>, Err>)
    ensures cancelled ==> res == Failure(AdRepositoryError)
    ensures !cancelled ==> res.Success?
    ensures res.Success? ==>
              forall ad :: ad in res.value <==>
                ad in r.data.Values && (f.publishedBy || ad.published) &&
                (f.dateBy ==> ad.creationDate == f.date) && (f.authorBy ==> ad.authorID == f.authorID)
  {
    if cancelled then Failure(AdRepositoryError)
    else Success(set ad | ad in r.data.Values && Listed(f, ad))
  }

  /** The `continue` tests of homework08's `GetAdsList`, with `PublishedOnly`. */
  predicate Listed08(f: Filter08, ad: Ad) {
    !(f.publishedOnly && !ad.published) &&
    !(f.dateBy && ad.creationDate != f.date) &&
    !(f.authorBy && ad.authorID != f.authorID)
  }

  /** `GetAdsList` of homework08. */
  function GetAdsList08(r: Repo, cancelled: bool, f: Filter08): (res: Result<set<Ad>, Err>)
    ensures cancelled ==> res == Failure(AdRepositoryError)
    ensures !cancelled ==> res.Success?
    ensures res.Success? ==>
              forall ad :: ad in res.value <==>
                ad in r.data.Values && (f.publishedOnly ==> ad.published) &&
                (f.dateBy ==> ad.creationDate == f.date) && (f.authorBy ==> ad.authorID == f.authorID)
  {
    if cancelled then Failure(AdRepositoryError)
    else Success(set ad | ad in r.data.Values && Listed08(f, ad))
  }

  /**
   * `SearchAds`: the stored ads whose title equals the pattern or starts
   * with it, which is to say whose title starts with it.
   */
  function SearchAds(r: Repo, cancelled: bool, pattern: string): (res: Result<set<Ad>, Err>)
    ensures cancelled ==> res == Failure(AdRepositoryError)
    ensures !cancelled ==> res.Success?
    ensures res.Success? ==>
              forall ad :: ad in res.value <==>
                ad in r.data.Values && |pattern| <= |ad.title| && ad.title[..|pattern|] == pattern
  {
    if cancelled then Failure(AdRepositoryError)
    else Success(set ad | ad in r.data.Values && (ad.title == pattern || HasPrefix(ad.title, pattern)))
  }

  /** `DeleteAd` of homework09: removes the one entry, or reports `AdNotExist`. */
  function DeleteAd(r: Repo, cancelled: bool, id: int): (out: (Repo, Option<Err>))
    ensures cancelled ==> out == (r, Some(AdRepositoryError))
    ensures !cancelled && id !in r.data ==> out == (r, Some(AdNotExist))
    ensures !cancelled && id in r.data ==> out == (Repo(r.data - {id}, r.freeID), None)
    ensures Inv(r) ==> Inv(out.0)
  {
    if cancelled then (r, Some(AdRepositoryError))
    else if id !in r.data then (r, Some(AdNotExist))
    else (r.(data := r.data - {id}), None)
  }

  // ---------------------------------------------------------------------
  // How the operations relate
  // ---------------------------------------------------------------------

  /** An added ad can be read back under the ID it was given; other IDs read as before. */
  lemma AddThenGet(r: Repo, ad: Ad, k: int)
    ensures var (r', res) := AddAd(r, false, ad);
      GetAdByID(r', false, res.value.id) == res &&
      (k != res.value.id ==> GetAdByID(r', false, k) == GetAdByID(r, false, k))
  {
  }

  /** After an update the ID reads back the new fields; other IDs read as before. */
  lemma UpdateThenGet(r: Repo, id: int, newAd: Ad, k: int)
    requires id in r.data
    ensures var (r', res) := UpdateAdFields(r, false, id, newAd);
      GetAdByID(r', false, id) == res && res.value.id == id &&
      (k != id ==> GetAdByID(r', false, k) == GetAdByID(r, false, k))
  {
  }

  /** After a delete the ID is gone; other IDs read as before. */
  lemma DeleteThenGet(r: Repo, id: int, k: int)
    requires id in r.data
    ensures var r' := DeleteAd(r, false, id).0;
      GetAdByID(r', false, id) == Failure(AdNotExist) &&
      (k != id ==> GetAdByID(r', false, k) == GetAdByID(r, false, k))
  {
  }

  /** IDs are never reused: an ad added after a delete never gets the deleted ID. */
  lemma IdsNeverReused(r: Repo, id: int, ad: Ad)
    requires Inv(r) && id in r.data
    ensures var r' := DeleteAd(r, false, id).0;
      AddAd(r', false, ad).1.value.id != id
  {
  }

  /** The homework08 filter is the homework09 one with its first flag negated. */
  lemma ListPolarity(r: Repo, cancelled: bool, f: Filter08)
    ensures GetAdsList08(r, cancelled, f) ==
            GetAdsList(r, cancelled, Filter(!f.publishedOnly, f.authorBy, f.authorID, f.dateBy, f.date))
  {
    if !cancelled {
      var g := Filter(!f.publishedOnly, f.authorBy, f.authorID, f.dateBy, f.date);
      assert GetAdsList08(r, cancelled, f).value == GetAdsList(r, cancelled, g).value;
    }
  }

  /** A filter that selects nothing lists every stored ad. */
  lemma ListAll(r: Repo, authorID: int, date: Date)
    ensures GetAdsList(r, false, Filter(true, false, authorID, false, date)) == Success(r.data.Values)
  {
    var res := GetAdsList(r, false, Filter(true, false, authorID, false, date));
    assert res.value == r.data.Values;
  }

  /** The empty pattern finds every stored ad, and a full title finds its ad. */
  lemma SearchFindsTitles(r: Repo, id: int)
    requires id in r.data
    ensures SearchAds(r, false, "") == Success(r.data.Values)
    ensures r.data[id] in SearchAds(r, false, r.data[id].title).value
  {
    var res := SearchAds(r, false, "");
    assert res.value == r.data.Values;
    assert r.data[id].title[..|r.data[id].title|] == r.data[id].title;
  }

  // ---------------------------------------------------------------------
  // Counting the ads of a store without deletion
  // ---------------------------------------------------------------------

  /** The IDs `0 .. n-1`. */
  function Range(n: nat): (s: set<int>)
    ensures forall k :: k in s <==> 0 <= k < n
  {
    if n == 0 then {} else Range(n - 1) + {n - 1}
  }

  lemma {:induction false} RangeSize(n: nat)
    ensures |Range(n)| == n
  {
    if n > 0 {
      var r := Range(n - 1);
      RangeSize(n - 1);
      assert n - 1 !in r;
      assert Range(n) == r + {n - 1};
      assert |r + {n - 1}| == |r| + |{n - 1}|;
    }
  }

  /** In homework08's store, which never deletes, the number of ads is `freeID`. */
  lemma DenseCount(r: Repo)
    requires Dense(r)
    ensures |r.data| == r.freeID
  {
    assert r.data.Keys == Range(r.freeID);
    RangeSize(r.freeID);
  }
}

/**
 * The slice-backed store of homework06: the ad with ID `i` is `data[i]`,
 * and `GetAdByID` hands out the slot itself, so a write through it changes
 * the store. Here the slot is returned as its index.
 */
module AdRepo06 {
  import opened Wrappers
  import opened Ads

  /** The slot index of each stored ad equals its ID. */
  predicate Inv(data: seq<Ad06>) {
    forall i :: 0 <= i < |data| ==> data[i].id == i
  }

  /** `New`: the empty slice. */
  function New(): (data: seq<Ad06>)
    ensures Inv(data) && |data| == 0
  {
    []
  }

  /**
   * `GetAdByID`: the slot of `id`, or `AdNotExist` when it lies past the
   * end. The context is checked first, so a done context answers
   * `ContextErr` for any `id`; a negative `id` on a live context would index
   * out of range in Go.
   */
  function GetAdByID(data: seq<Ad06>, cancelled: bool, id: int): (res: Result<nat, Err>)
    requires cancelled || id >= 0
    ensures cancelled ==> res == Failure(ContextErr)
    ensures !cancelled ==> (res.Success? <==> id < |data|)
    ensures !cancelled && id >= |data| ==> res == Failure(AdNotExist)
    ensures res.Success? ==> res.value == id < |data|
    ensures Inv(data) && res.Success? ==> data[res.value].id == id
  {
    if cancelled then Failure(ContextErr)
    else if id >= |data| then Failure(AdNotExist)
    else Success(id)
  }

  /** `AddAd`: the ad gets the current length as its ID and is appended. */
  function AddAd(data: seq<Ad06>, cancelled: bool, ad: Ad06): (out: (seq<Ad06>, Result<Ad06, Err>))
    ensures cancelled ==> out == (data, Failure(ContextErr))
    ensures !cancelled ==> out.1 == Success(ad.(id := |data|)) && out.0 == data + [ad.(id := |data|)]
    ensures |out.0| >= |data| && out.0[..|data|] == data
    ensures Inv(data) ==> Inv(out.0)
  {
    if cancelled then (data, Failure(ContextErr))
    else
      var stored := ad.(id := |data|);
      (data + [stored], Success(stored))
  }

  /** An appended ad is found under the ID it was given. */
  lemma AddThenGet(data: seq<Ad06>, ad: Ad06)
    ensures var (data', res) := AddAd(data, false, ad);
      GetAdByID(data', false, res.value.id) == Success(res.value.id) && data'[res.value.id] == res.value
  {
  }
}
