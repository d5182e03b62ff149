/** Image resources of a publish message: unique identifiers, bounded dimensions, exact pixel data and a byte budget
    over all of them. */
module ImageResources {
  import opened Octets
  import opened Optional
  import opened Base64

  const MAXIMUM_RESOURCES := 16
  const MAXIMUM_DIMENSION := 512
  const MAXIMUM_BYTES := 4 * 1024 * 1024

  datatype Resource = Resource(id: string, format: string, width: int, height: int, data: string)
  datatype Image = Image(id: string, width: int, height: int, pixels: seq<Octet>)

  function ByteCount(r: Resource): int {
    r.width * r.height * 4
  }

  predicate Named(r: Resource, seen: set<string>) {
    1 <= |r.id| <= 128 && r.id !in seen && r.format == "rgba8"
  }

  predicate Sized(r: Resource) {
    1 <= r.width <= MAXIMUM_DIMENSION && 1 <= r.height <= MAXIMUM_DIMENSION
  }

  lemma CountsPixels(r: Resource)
    requires Sized(r)
    ensures 4 <= ByteCount(r) <= 1024 * 1024
  {
    Products(r.width, r.height);
  }

  lemma {:induction false} Products(width: nat, height: nat)
    requires 1 <= width <= MAXIMUM_DIMENSION && 1 <= height <= MAXIMUM_DIMENSION
    ensures height <= width * height <= MAXIMUM_DIMENSION * height
  {
    if width > 1 {
      Products(width - 1, height);
      assert width * height == (width - 1) * height + height;
    }
    Bounded(width, height);
  }

  lemma Bounded(width: nat, height: nat)
    requires width <= MAXIMUM_DIMENSION
    ensures width * height <= MAXIMUM_DIMENSION * height
  {
  }

  /** One resource, given the names and the bytes before it. Its pixels are as many as its dimensions say. */
  function LoadOne(r: Resource, seen: set<string>, total: nat): (image: Option<Image>)
    ensures image.Some? ==> |image.value.pixels| == ByteCount(r) && total + |image.value.pixels| <= MAXIMUM_BYTES
  {
    if !Named(r, seen) || !Sized(r) then None
    else
      CountsPixels(r);
      if ByteCount(r) > MAXIMUM_BYTES - total then None
      else
        var pixels := Decode(r.data, ByteCount(r));
        if pixels.Refused? then None
        else
          DecodeIff(r.data, ByteCount(r), pixels.bytes);
          Some(Image(r.id, r.width, r.height, pixels.bytes))
  }

  function Behind(front: seq<Image>, rest: Option<seq<Image>>): Option<seq<Image>> {
    if rest.Some? then Some(front + rest.value) else None
  }

  /** How one resource is loaded. */
  type Loader = (Resource, set<string>, nat) -> Option<Image>

  function LoadFrom(one: Loader, resources: seq<Resource>, seen: set<string>, total: nat): Option<seq<Image>>
    decreases resources
  {
    if resources == [] then Some([])
    else
      var first := one(resources[0], seen, total);
      if first.None? then None
      else
        Behind([first.value], LoadFrom(one, resources[1..], seen + {resources[0].id}, total + |first.value.pixels|))
  }

  function Load(resources: seq<Resource>): Option<seq<Image>> {
    if |resources| > MAXIMUM_RESOURCES then None else LoadFrom(LoadOne, resources, {}, 0)
  }

  function TotalBytes(images: seq<Image>): nat {
    if images == [] then 0 else |images[0].pixels| + TotalBytes(images[1..])
  }

  /** The pixel data is the canonical encoding of the image's pixels, one octet for each channel of each pixel. */
  predicate Holds(r: Resource, image: Image) {
    && 1 <= r.width <= 512 && 1 <= r.height <= 512 && 1 <= |r.id| <= 128 && r.format == "rgba8"
    && image.id == r.id && image.width == r.width && image.height == r.height
    && |image.pixels| == r.width * r.height * 4 && r.data == Encode(image.pixels)
  }

  /** The images are what the resources encode, one for one, and no identifier repeats. */
  predicate AllHold(resources: seq<Resource>, images: seq<Image>, seen: set<string>)
    decreases resources
  {
    && |resources| == |images|
    && (resources == [] ||
        (Holds(resources[0], images[0]) && resources[0].id !in seen &&
          AllHold(resources[1..], images[1..], seen + {resources[0].id})))
  }

  lemma {:induction false} AllHoldAt(resources: seq<Resource>, images: seq<Image>, seen: set<string>, i: nat)
    requires AllHold(resources, images, seen) && i < |resources|
    ensures Holds(resources[i], images[i]) && resources[i].id !in seen
    ensures forall j :: 0 <= j < i ==> resources[j].id != resources[i].id
  {
    if i > 0 {
      AllHoldAt(resources[1..], images[1..], seen + {resources[0].id}, i - 1);
      forall j | 0 < j < i ensures resources[j].id != resources[i].id { assert resources[j] == resources[1..][j - 1]; }
    }
  }

  /** A loader that loads exactly what a resource encodes, once and within the budget. */
  ghost predicate Exact(one: Loader) {
    forall r, seen, total: nat, image :: one(r, seen, total) == Some(image) <==>
      Holds(r, image) && r.id !in seen && total + |image.pixels| <= MAXIMUM_BYTES
  }

  lemma LoadOneIsExact()
    ensures Exact(LoadOne)
  {
    forall r, seen, total: nat, image
      ensures LoadOne(r, seen, total) == Some(image) <==>
        Holds(r, image) && r.id !in seen && total + |image.pixels| <= MAXIMUM_BYTES
    {
      if Sized(r) {
        CountsPixels(r);
        DecodeIff(r.data, ByteCount(r), image.pixels);
      }
    }
  }

  lemma LoadHead(one: Loader, resources: seq<Resource>, seen: set<string>, total: nat, images: seq<Image>)
    requires resources != []
    ensures LoadFrom(one, resources, seen, total) == Some(images) <==>
      && images != [] && one(resources[0], seen, total) == Some(images[0])
      && LoadFrom(one, resources[1..], seen + {resources[0].id}, total + |images[0].pixels|) == Some(images[1..])
  {
    var first := one(resources[0], seen, total);
    if first.Some? {
      var rest := LoadFrom(one, resources[1..], seen + {resources[0].id}, total + |first.value.pixels|);
      if rest.Some? && images != [] {
        assert [first.value] + rest.value == images <==> first.value == images[0] && rest.value == images[1..] by {
          assert ([first.value] + rest.value)[1..] == rest.value;
          assert images == [images[0]] + images[1..];
        }
      }
    }
  }

  /** Resources load exactly when the images are what they encode, no name repeats, and all of them together stay
      within the budget. */
  lemma {:induction false} LoadFromIff(one: Loader, resources: seq<Resource>, seen: set<string>, total: nat,
      images: seq<Image>)
    requires Exact(one) && total <= MAXIMUM_BYTES
    ensures LoadFrom(one, resources, seen, total) == Some(images) <==>
      AllHold(resources, images, seen) && total + TotalBytes(images) <= MAXIMUM_BYTES
    decreases resources
  {
    if resources != [] && images != [] {
      LoadHead(one, resources, seen, total, images);
      assert one(resources[0], seen, total) == Some(images[0]) <==>
        Holds(resources[0], images[0]) && resources[0].id !in seen && total + |images[0].pixels| <= MAXIMUM_BYTES;
      if one(resources[0], seen, total) == Some(images[0]) {
        LoadFromIff(one, resources[1..], seen + {resources[0].id}, total + |images[0].pixels|, images[1..]);
      }
    }
  }

  lemma LoadIff(resources: seq<Resource>, images: seq<Image>)
    ensures Load(resources) == Some(images) <==>
      |resources| <= MAXIMUM_RESOURCES && AllHold(resources, images, {}) && TotalBytes(images) <= MAXIMUM_BYTES
  {
    LoadOneIsExact();
    LoadFromIff(LoadOne, resources, {}, 0, images);
  }

  lemma BehindTwice(front: seq<Image>, image: Image, rest: Option<seq<Image>>)
    ensures Behind(front, Behind([image], rest)) == Behind(front + [image], rest)
  {
    if rest.Some? { assert front + ([image] + rest.value) == (front + [image]) + rest.value; }
  }

  lemma LoadAdvances(one: Loader, resources: seq<Resource>, k: nat, seen: set<string>, total: nat,
      loaded: seq<Image>, first: Option<Image>)
    requires k < |resources| && first == one(resources[k], seen, total)
    ensures Behind(loaded, LoadFrom(one, resources[k..], seen, total)) ==
      if first.None? then None
      else Behind(loaded + [first.value],
        LoadFrom(one, resources[k + 1..], seen + {resources[k].id}, total + |first.value.pixels|))
  {
    assert resources[k..][1..] == resources[k + 1..];
    if first.Some? {
      BehindTwice(loaded, first.value,
        LoadFrom(one, resources[k + 1..], seen + {resources[k].id}, total + |first.value.pixels|));
    }
  }

  /** The loop keeps the identifiers seen and the bytes used. */
  method LoadEach(one: Loader, resources: seq<Resource>) returns (images: Option<seq<Image>>)
    ensures images == LoadFrom(one, resources, {}, 0)
  {
    var loaded: seq<Image>, seen: set<string>, total: nat := [], {}, 0;
    ghost var goal := LoadFrom(one, resources, {}, 0);
    assert resources[0..] == resources;
    assert goal.Some? ==> [] + goal.value == goal.value;
    for k := 0 to |resources|
      invariant goal == Behind(loaded, LoadFrom(one, resources[k..], seen, total))
    {
      var image := one(resources[k], seen, total);
      LoadAdvances(one, resources, k, seen, total, loaded, image);
      if image.None? { return None; }
      seen, total, loaded := seen + {resources[k].id}, total + |image.value.pixels|, loaded + [image.value];
    }
    assert resources[|resources|..] == [] && loaded + [] == loaded;
    images := Some(loaded);
  }

  method LoadResources(resources: seq<Resource>) returns (images: Option<seq<Image>>)
    ensures images == Load(resources)
  {
    if |resources| > MAXIMUM_RESOURCES { return None; }
    images := LoadEach(LoadOne, resources);
  }
}
