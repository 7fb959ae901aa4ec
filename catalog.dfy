/**
  The image catalogue of one script run: `ImageRater.load_images`, a filter
  by file extension followed by Python's `sorted`. The directory listing is an
  input (`None` when the `images` directory does not exist).
 */
module Catalog {
  import opened Wrappers
  import opened Text
  import opened Ordering

  /** The extensions `load_images` accepts, compared after lower-casing the name. */
  const Extensions: seq<string> := [".jpg", ".jpeg", ".png"]

  /** `f.lower().endswith(('.jpg', '.jpeg', '.png'))` */
  predicate IsImageName(name: string) {
    EndsWith(Lower(name), ".jpg") || EndsWith(Lower(name), ".jpeg") || EndsWith(Lower(name), ".png")
  }

  /**
    A name is kept exactly when it splits into some stem followed by one of the
    extensions, written in any mix of upper and lower case.
   */
  lemma ImageNameIff(name: string)
    ensures IsImageName(name) <==> exists k :: 0 <= k <= |name| && Lower(name[k..]) in Extensions
  {
    if IsImageName(name) {
      var k := ExtensionStart(name);
    }
    if exists k :: 0 <= k <= |name| && Lower(name[k..]) in Extensions {
      var k :| 0 <= k <= |name| && Lower(name[k..]) in Extensions;
      LowerSuffix(name, k);
      assert EndsWith(Lower(name), Lower(name[k..]));
    }
  }

  /** Where the extension of an image name begins. */
  lemma ExtensionStart(name: string) returns (k: nat)
    requires IsImageName(name)
    ensures k <= |name| && Lower(name[k..]) in Extensions
  {
    var low := Lower(name);
    k := if EndsWith(low, ".jpeg") then |name| - 5 else |name| - 4;
    LowerSuffix(name, k);
    if EndsWith(low, ".jpeg") {
      assert Lower(name[k..]) == ".jpeg";
    } else if EndsWith(low, ".jpg") {
      assert Lower(name[k..]) == ".jpg";
    } else {
      assert Lower(name[k..]) == ".png";
    }
  }

  /** The lower-cased tail of a name is the tail of the lower-cased name. */
  lemma LowerSuffix(s: string, k: nat)
    requires k <= |s|
    ensures Lower(s[k..]) == Lower(s)[k..]
  {
    assert s == s[..k] + s[k..];
    LowerConcat(s[..k], s[k..]);
  }

  /** The list comprehension of `load_images`: the listed names that pass the filter, in listing order. */
  function KeepImages(names: seq<string>): seq<string> {
    if names == [] then []
    else if IsImageName(names[0]) then [names[0]] + KeepImages(names[1..])
    else KeepImages(names[1..])
  }

  /** The filter keeps each image name as often as it is listed and drops every other name. */
  lemma {:induction false} KeepImagesSpec(names: seq<string>)
    ensures |KeepImages(names)| <= |names|
    ensures forall x :: multiset(KeepImages(names))[x] == if IsImageName(x) then multiset(names)[x] else 0
  {
    if names != [] {
      KeepImagesSpec(names[1..]);
      assert names == [names[0]] + names[1..];
      assert multiset(names) == multiset{names[0]} + multiset(names[1..]);
    }
  }

  /** `load_images`: `[]` when the directory is missing, otherwise the listed image names, sorted. */
  function LoadImages(listing: Option<seq<string>>): seq<string> {
    match listing
    case None => []
    case Some(names) => Sort(KeepImages(names))
  }

  /**
    What `load_images` promises: a missing directory gives `[]`; otherwise
    every listed image name is kept (as often as it is listed), nothing else
    is added, and the result is in ascending order of Python strings.
   */
  lemma LoadImagesSpec(listing: Option<seq<string>>)
    ensures listing.None? ==> LoadImages(listing) == []
    ensures Sorted(LoadImages(listing))
    ensures forall x :: multiset(LoadImages(listing))[x] ==
                          if listing.Some? && IsImageName(x) then multiset(listing.value)[x] else 0
    ensures forall x :: x in LoadImages(listing) <==> listing.Some? && x in listing.value && IsImageName(x)
    ensures listing.Some? ==> |LoadImages(listing)| <= |listing.value|
  {
    var r := LoadImages(listing);
    if listing.Some? {
      var kept := KeepImages(listing.value);
      KeepImagesSpec(listing.value);
      SortSpec(kept);
      assert |r| == |multiset(r)| == |multiset(kept)| == |kept|;
    }
    assert forall x :: x in r <==> x in multiset(r);
  }

  /** Upper-case extensions pass, other extensions do not, and capitals sort before lower case. */
  lemma MixedCaseListing()
    ensures LoadImages(Some(["b.png", "A.JPG", "c.txt"])) == ["A.JPG", "b.png"]
  {
    FilterMixedCase();
    assert Sort(["b.png", "A.JPG"]) == ["A.JPG", "b.png"] by {
      assert ["b.png", "A.JPG"][1..] == ["A.JPG"];
      assert ["A.JPG"][1..] == [];
      assert !LessEq("b.png", "A.JPG");
    }
  }

  lemma FilterMixedCase()
    ensures KeepImages(["b.png", "A.JPG", "c.txt"]) == ["b.png", "A.JPG"]
  {
    var listing := ["b.png", "A.JPG", "c.txt"];
    assert Lower("b.png")[1..] == ".png";
    assert Lower("A.JPG")[1..] == ".jpg";
    assert Lower("c.txt")[4] == 't';
    assert listing[1..] == ["A.JPG", "c.txt"];
    assert listing[1..][1..] == ["c.txt"];
    assert listing[1..][1..][1..] == [];
  }

  /** A listing that is already in order and holds only images is the catalogue itself. */
  lemma TwoImageListing()
    ensures LoadImages(Some(["a.jpg", "b.jpg"])) == ["a.jpg", "b.jpg"]
  {
    var listing := ["a.jpg", "b.jpg"];
    assert KeepImages(listing) == listing by {
      assert Lower("a.jpg")[1..] == ".jpg";
      assert Lower("b.jpg")[1..] == ".jpg";
      assert listing[1..] == ["b.jpg"];
      assert listing[1..][1..] == [];
    }
    assert Sort(listing) == listing by {
      assert listing[1..] == ["b.jpg"];
      assert ["b.jpg"][1..] == [];
      assert LessEq("a.jpg", "b.jpg");
    }
  }
}
