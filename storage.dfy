/** The submission repository of lib/storage.ts over an S3-style object store.

    The store is a map from (bucket, key) to a stored object. What the remote
    service does with each request is a parameter: `fault` is the error a
    request fails with, or `None` when it succeeds. Identifiers the source
    draws from `uuidv4()` and the clock reading `new Date().toISOString()` are
    parameters too. `Promise.all` is modelled in list order: every upload is
    issued (none is cancelled when another fails) and the error reported is
    that of the first failing upload in list order. */
module Storage {
  import opened Wrappers
  import opened Strings
  import opened Submissions
  import Slug

  const SubmissionsBucket: string := "built-with-bifrost-submissions"
  const ApprovedBucket: string := "built-with-bifrost-approved"
  const ImagesBucket: string := "built-with-bifrost-images"
  /** Public address of the images bucket, up to and including the `/`
      before the key. */
  const ImagesPublicBase: string := "https://built-with-bifrost-images.fly.storage.tigris.dev/"
  const JsonSuffix: string := ".json"
  const JsonContentType: string := "application/json"

  datatype Location = Location(bucket: string, key: string)

  /** A stored body is either a JSON document that parses as a submission
      record or bytes that do not parse (an image, a corrupted record). */
  datatype Body = Record(submission: Submission) | Opaque(bytes: seq<bv8>)

  datatype StoredObject = StoredObject(body: Body, contentType: string)

  /** `NoSuchKey` is the service's answer for an absent key; every other
      failure (network, credentials, a broken body stream) is `RequestFailed`. */
  datatype StoreError = NoSuchKey | RequestFailed(message: string)

  /** An uploaded browser `File`: its name, declared MIME type and content. */
  datatype File = File(name: string, mimeType: string, content: seq<bv8>)

  type Objects = map<Location, StoredObject>

  /** The keys of one bucket. */
  function KeysIn(objects: Objects, bucket: string): set<string>
  {
    set loc | loc in objects && loc.bucket == bucket :: loc.key
  }

  /** `keys` lists every element of `s` exactly once. */
  predicate Enumerates(keys: seq<string>, s: set<string>)
  {
    (forall i, j :: 0 <= i < j < |keys| ==> keys[i] != keys[j])
    && (forall k :: k in keys ==> k in s) && (forall k :: k in s ==> k in keys)
  }

  /** The object store client. */
  class ObjectStore {
    var objects: Objects

    constructor (initial: Objects)
      ensures objects == initial
    {
      objects := initial;
    }

    /** PutObject: on success the object replaces whatever the key held. */
    method Put(loc: Location, obj: StoredObject, fault: Option<StoreError>) returns (r: Outcome<StoreError>)
      modifies this
      ensures fault.None? ==> r == Pass && objects == old(objects)[loc := obj]
      ensures fault.Some? ==> r == Fail(fault.value) && objects == old(objects)
    {
      if fault.Some? {
        r := Fail(fault.value);
      } else {
        objects := objects[loc := obj];
        r := Pass;
      }
    }

    /** GetObject: the stored object, `NoSuchKey` for an absent key, or the
        failure of the request. */
    method Get(loc: Location, fault: Option<StoreError>) returns (r: Result<StoredObject, StoreError>)
      ensures fault.Some? ==> r == Failure(fault.value)
      ensures fault.None? && loc in objects ==> r == Success(objects[loc])
      ensures fault.None? && loc !in objects ==> r == Failure(NoSuchKey)
    {
      if fault.Some? {
        r := Failure(fault.value);
      } else if loc in objects {
        r := Success(objects[loc]);
      } else {
        r := Failure(NoSuchKey);
      }
    }

    /** ListObjectsV2 over one bucket: every key once, in an order the
        service chooses. */
    method List(bucket: string, fault: Option<StoreError>) returns (r: Result<seq<string>, StoreError>)
      ensures fault.Some? ==> r == Failure(fault.value)
      ensures fault.None? ==> r.Success? && Enumerates(r.value, KeysIn(objects, bucket))
    {
      if fault.Some? {
        return Failure(fault.value);
      }
      var all := KeysIn(objects, bucket);
      var remaining := all;
      var keys: seq<string> := [];
      while remaining != {}
        invariant remaining <= all
        invariant forall i, j :: 0 <= i < j < |keys| ==> keys[i] != keys[j]
        invariant forall k :: k in keys <==> k in all && k !in remaining
        decreases |remaining|
      {
        var k :| k in remaining;
        keys := keys + [k];
        remaining := remaining - {k};
      }
      r := Success(keys);
    }
  }

  // ---------------------------------------------------------------------
  // uploadImage

  /** `name.split(".").pop()`: the text after the last dot, or the whole
      name when it has none. */
  function Extension(name: string): (ext: string)
    ensures EndsWith(name, ext)
    ensures forall i :: 0 <= i < |ext| ==> ext[i] != '.'
    ensures |ext| == |name| || name[|name| - |ext| - 1] == '.'
  {
    if name == [] then []
    else if name[|name| - 1] == '.' then []
    else
      var init := name[..|name| - 1];
      assert name == init + [name[|name| - 1]];
      Extension(init) + [name[|name| - 1]]
  }

  /** The extension is the only dot-free suffix that starts the name or
      follows a dot. */
  lemma ExtensionUnique(name: string, e: string)
    requires EndsWith(name, e)
    requires forall i :: 0 <= i < |e| ==> e[i] != '.'
    requires |e| == |name| || name[|name| - |e| - 1] == '.'
    ensures e == Extension(name)
  {
    var x := Extension(name);
  }

  /** Splitting at the last dot gives back the part after it. */
  lemma ExtensionAfterLastDot(base: string, ext: string)
    requires forall i :: 0 <= i < |ext| ==> ext[i] != '.'
    ensures Extension(base + "." + ext) == ext
  {
    var name := base + "." + ext;
    assert name[|name| - |ext|..] == ext;
    assert name[|name| - |ext| - 1] == '.';
    ExtensionUnique(name, ext);
  }

  function ImageKey(uuid: string, file: File): string
  {
    uuid + "." + Extension(file.name)
  }

  function ImageUrl(uuid: string, file: File): string
  {
    ImagesPublicBase + ImageKey(uuid, file)
  }

  function ImageObject(file: File): StoredObject
  {
    StoredObject(Opaque(file.content), file.mimeType)
  }

  /** The store after one upload attempt. */
  function AfterUpload(objects: Objects, uuid: string, file: File, fault: Option<StoreError>): Objects
  {
    if fault.None? then objects[Location(ImagesBucket, ImageKey(uuid, file)) := ImageObject(file)]
    else objects
  }

  /** uploadImage: writes the file's bytes with its MIME type under
      `<uuid>.<extension>` in the images bucket and returns the public URL;
      a failed write is passed on to the caller. */
  method UploadImage(store: ObjectStore, file: File, uuid: string, fault: Option<StoreError>)
    returns (r: Result<string, StoreError>)
    modifies store
    ensures fault.None? ==> r == Success(ImagesPublicBase + ImageKey(uuid, file))
    ensures fault.Some? ==> r == Failure(fault.value)
    ensures store.objects == AfterUpload(old(store.objects), uuid, file, fault)
  {
    var key := ImageKey(uuid, file);
    var w := store.Put(Location(ImagesBucket, key), ImageObject(file), fault);
    if w.Fail? {
      return Failure(w.error);
    }
    r := Success(ImagesPublicBase + key);
  }

  // ---------------------------------------------------------------------
  // submitProject

  /** The store after every upload of a submission has been attempted, in
      list order. */
  function Uploaded(objects: Objects, images: seq<File>, uuids: seq<string>,
                    faults: seq<Option<StoreError>>): Objects
    requires |uuids| == |images| && |faults| == |images|
  {
    if images == [] then objects
    else
      var n := |images| - 1;
      AfterUpload(Uploaded(objects, images[..n], uuids[..n], faults[..n]), uuids[n], images[n], faults[n])
  }

  /** The position of the first failed upload. */
  function FirstFailed(faults: seq<Option<StoreError>>): (r: Option<nat>)
    ensures r.None? <==> forall i :: 0 <= i < |faults| ==> faults[i].None?
    ensures r.Some? ==> r.value < |faults| && faults[r.value].Some?
                        && forall j :: 0 <= j < r.value ==> faults[j].None?
  {
    if faults == [] then None
    else
      var n := |faults| - 1;
      var earlier := FirstFailed(faults[..n]);
      if earlier.Some? then earlier
      else if faults[n].Some? then Some(n)
      else None
  }

  /** The error `Promise.all` rejects with: that of the first failed upload. */
  function FirstFault(faults: seq<Option<StoreError>>): Option<StoreError>
  {
    match FirstFailed(faults)
    case None => None
    case Some(i) => faults[i]
  }

  /** The URLs `Promise.all` resolves to, one per image, in image order. */
  function ImageUrls(images: seq<File>, uuids: seq<string>): (urls: seq<string>)
    requires |uuids| == |images|
  {
    if images == [] then []
    else
      var n := |images| - 1;
      ImageUrls(images[..n], uuids[..n]) + [ImageUrl(uuids[n], images[n])]
  }

  lemma {:induction false} ImageUrlsAt(images: seq<File>, uuids: seq<string>)
    requires |uuids| == |images|
    ensures |ImageUrls(images, uuids)| == |images|
    ensures forall i :: 0 <= i < |images| ==> ImageUrls(images, uuids)[i] == ImageUrl(uuids[i], images[i])
  {
    if images != [] {
      var n := |images| - 1;
      ImageUrlsAt(images[..n], uuids[..n]);
    }
  }

  function RecordLocation(slug: string): Location
  {
    Location(SubmissionsBucket, slug + JsonSuffix)
  }

  /** The record `submitProject` builds once every upload has succeeded. */
  function PendingRecord(data: SubmissionFormData, id: string, images: seq<File>,
                         uuids: seq<string>, now: string): Submission
    requires |uuids| == |images|
  {
    Assemble(data, id, Slug.Slugify(data.title), ImageUrls(images, uuids), now, Pending)
  }

  function RecordObject(s: Submission): StoredObject
  {
    StoredObject(Record(s), JsonContentType)
  }

  /** The store after `submitProject`: the uploads that succeeded, and the
      pending record only when every upload and the record write succeeded. */
  function SubmitEffect(objects: Objects, data: SubmissionFormData, id: string, images: seq<File>,
                        uuids: seq<string>, now: string, uploadFaults: seq<Option<StoreError>>,
                        writeFault: Option<StoreError>): (r: Objects)
    requires |uuids| == |images| && |uploadFaults| == |images|
    ensures FirstFault(uploadFaults).None? && writeFault.None? ==> RecordLocation(Slug.Slugify(data.title)) in r
  {
    var uploaded := Uploaded(objects, images, uuids, uploadFaults);
    if FirstFault(uploadFaults).None? && writeFault.None? then
      uploaded[RecordLocation(Slug.Slugify(data.title)) := RecordObject(PendingRecord(data, id, images, uuids, now))]
    else uploaded
  }

  lemma FirstFaultSnoc(faults: seq<Option<StoreError>>, f: Option<StoreError>)
    ensures FirstFault(faults + [f]) == if FirstFault(faults).Some? then FirstFault(faults) else f
  {
    assert (faults + [f])[..|faults|] == faults;
    assert FirstFailed(faults).Some? ==> (faults + [f])[FirstFailed(faults).value] == faults[FirstFailed(faults).value];
  }

  /** One more upload: how the store grows from the first `i` images to the
      first `i + 1`. */
  lemma UploadedStep(objects: Objects, images: seq<File>, uuids: seq<string>,
                     faults: seq<Option<StoreError>>, i: nat)
    requires |uuids| == |images| && |faults| == |images| && i < |images|
    ensures Uploaded(objects, images[..i + 1], uuids[..i + 1], faults[..i + 1])
            == AfterUpload(Uploaded(objects, images[..i], uuids[..i], faults[..i]), uuids[i], images[i], faults[i])
  {
    assert images[..i + 1][..i] == images[..i];
    assert uuids[..i + 1][..i] == uuids[..i];
    assert faults[..i + 1][..i] == faults[..i];
  }

  /** One more upload: the error reported stays the first one. */
  lemma FirstFaultStep(faults: seq<Option<StoreError>>, i: nat)
    requires i < |faults|
    ensures FirstFault(faults[..i + 1])
            == if FirstFault(faults[..i]).Some? then FirstFault(faults[..i]) else faults[i]
  {
    FirstFaultSnoc(faults[..i], faults[i]);
    assert faults[..i] + [faults[i]] == faults[..i + 1];
  }

  /** One more upload: the URL list grows by the new image's URL. */
  lemma ImageUrlsStep(images: seq<File>, uuids: seq<string>, i: nat)
    requires |uuids| == |images| && i < |images|
    ensures ImageUrls(images[..i + 1], uuids[..i + 1])
            == ImageUrls(images[..i], uuids[..i]) + [ImageUrl(uuids[i], images[i])]
  {
    assert images[..i + 1][..i] == images[..i];
    assert uuids[..i + 1][..i] == uuids[..i];
  }

  /** `Promise.all(images.map(uploadImage))`, one upload after another: every
      image is uploaded whatever happened to the others, the reported error
      is the first failing image's, and on success the URLs are in image
      order. */
  method UploadImages(store: ObjectStore, images: seq<File>, uuids: seq<string>,
                      uploadFaults: seq<Option<StoreError>>)
    returns (urls: seq<string>, failure: Option<StoreError>)
    requires |uuids| == |images| && |uploadFaults| == |images|
    modifies store
    ensures store.objects == Uploaded(old(store.objects), images, uuids, uploadFaults)
    ensures failure == FirstFault(uploadFaults)
    ensures failure.None? ==> urls == ImageUrls(images, uuids)
  {
    urls := [];
    failure := None;
    var i := 0;
    while i < |images|
      invariant 0 <= i <= |images|
      invariant store.objects == Uploaded(old(store.objects), images[..i], uuids[..i], uploadFaults[..i])
      invariant failure == FirstFault(uploadFaults[..i])
      invariant failure.None? ==> urls == ImageUrls(images[..i], uuids[..i])
    {
      var u := UploadImage(store, images[i], uuids[i], uploadFaults[i]);
      UploadedStep(old(store.objects), images, uuids, uploadFaults, i);
      FirstFaultStep(uploadFaults, i);
      ImageUrlsStep(images, uuids, i);
      match u {
        case Success(url) =>
          urls := urls + [url];
        case Failure(e) =>
          if failure.None? {
            failure := Some(e);
          }
      }
      i := i + 1;
    }
    assert images[..i] == images && uuids[..i] == uuids && uploadFaults[..i] == uploadFaults;
  }

  /** submitProject. On success it returns the pending record: slug from the
      title, one URL per image in image order, the form fields as given; the
      store then holds the uploaded images and the record under
      `<slug>.json` in the submissions bucket, replacing any record there.
      When an upload fails no record is written, yet the images that did
      upload stay. */
  method SubmitProject(store: ObjectStore, data: SubmissionFormData, images: seq<File>, id: string,
                       uuids: seq<string>, now: string, uploadFaults: seq<Option<StoreError>>,
                       writeFault: Option<StoreError>)
    returns (r: Result<Submission, StoreError>)
    requires |uuids| == |images| && |uploadFaults| == |images|
    modifies store
    ensures r.Success? <==> FirstFault(uploadFaults).None? && writeFault.None?
    ensures r.Success? ==> r.value == PendingRecord(data, id, images, uuids, now)
    ensures FirstFault(uploadFaults).Some? ==> r == Failure(FirstFault(uploadFaults).value)
    ensures FirstFault(uploadFaults).None? && writeFault.Some? ==> r == Failure(writeFault.value)
    ensures store.objects
            == SubmitEffect(old(store.objects), data, id, images, uuids, now, uploadFaults, writeFault)
  {
    var urls, failure := UploadImages(store, images, uuids, uploadFaults);
    if failure.Some? {
      return Failure(failure.value);
    }
    var slug := Slug.Slugify(data.title);
    var record := Assemble(data, id, slug, urls, now, Pending);
    var w := store.Put(RecordLocation(slug), RecordObject(record), writeFault);
    if w.Fail? {
      return Failure(w.error);
    }
    r := Success(record);
  }

  /** The record submitProject returns is pending, takes its slug from the
      title, has one URL per image in image order, and carries the
      submitter's fields as given. */
  lemma PendingRecordShape(data: SubmissionFormData, id: string, images: seq<File>,
                           uuids: seq<string>, now: string)
    requires |uuids| == |images|
    ensures var s := PendingRecord(data, id, images, uuids, now);
            && s.status == Pending && s.slug == Slug.Slugify(data.title)
            && s.id == id && s.createdAt == now && FormPart(s) == data
            && |s.imageUrls| == |images|
            && forall i :: 0 <= i < |images| ==>
                 s.imageUrls[i] == ImagesPublicBase + uuids[i] + "." + Extension(images[i].name)
  {
    ImageUrlsAt(images, uuids);
  }

  /** Uploads touch the images bucket only. */
  lemma {:induction false} UploadedOutsideImages(objects: Objects, images: seq<File>, uuids: seq<string>,
                                                faults: seq<Option<StoreError>>, loc: Location)
    requires |uuids| == |images| && |faults| == |images|
    requires loc.bucket != ImagesBucket
    ensures loc in Uploaded(objects, images, uuids, faults) <==> loc in objects
    ensures loc in objects ==> Uploaded(objects, images, uuids, faults)[loc] == objects[loc]
  {
    if images != [] {
      var n := |images| - 1;
      UploadedOutsideImages(objects, images[..n], uuids[..n], faults[..n], loc);
    }
  }

  /** Every upload that succeeded leaves its image in the store, whatever
      happened to the others. */
  lemma {:induction false} UploadedKeepsImages(objects: Objects, images: seq<File>, uuids: seq<string>,
                                              faults: seq<Option<StoreError>>, i: nat)
    requires |uuids| == |images| && |faults| == |images|
    requires i < |images| && faults[i].None?
    requires forall j :: 0 <= j < |images| && j != i ==> ImageKey(uuids[j], images[j]) != ImageKey(uuids[i], images[i])
    ensures Location(ImagesBucket, ImageKey(uuids[i], images[i])) in Uploaded(objects, images, uuids, faults)
    ensures Uploaded(objects, images, uuids, faults)[Location(ImagesBucket, ImageKey(uuids[i], images[i]))]
            == ImageObject(images[i])
  {
    var n := |images| - 1;
    var prev := Uploaded(objects, images[..n], uuids[..n], faults[..n]);
    assert Uploaded(objects, images, uuids, faults) == AfterUpload(prev, uuids[n], images[n], faults[n]);
    if i < n {
      assert images[..n][i] == images[i] && uuids[..n][i] == uuids[i] && faults[..n][i] == faults[i];
      forall j | 0 <= j < n && j != i
        ensures ImageKey(uuids[..n][j], images[..n][j]) != ImageKey(uuids[..n][i], images[..n][i])
      {
        assert images[..n][j] == images[j] && uuids[..n][j] == uuids[j];
      }
      UploadedKeepsImages(objects, images[..n], uuids[..n], faults[..n], i);
      assert ImageKey(uuids[n], images[n]) != ImageKey(uuids[i], images[i]);
    }
  }

  /** submitProject writes exactly one object outside the images bucket: the
      record under `<slug>.json` in the submissions bucket, and only on
      success. In particular nothing reaches the approved bucket. */
  lemma SubmitWritesOneRecord(objects: Objects, data: SubmissionFormData, id: string, images: seq<File>,
                              uuids: seq<string>, now: string, uploadFaults: seq<Option<StoreError>>,
                              writeFault: Option<StoreError>, loc: Location)
    requires |uuids| == |images| && |uploadFaults| == |images|
    requires loc.bucket != ImagesBucket
    ensures var after := SubmitEffect(objects, data, id, images, uuids, now, uploadFaults, writeFault);
            if loc == RecordLocation(Slug.Slugify(data.title)) && FirstFault(uploadFaults).None? && writeFault.None?
            then loc in after && after[loc] == RecordObject(PendingRecord(data, id, images, uuids, now))
            else (loc in after <==> loc in objects) && (loc in objects ==> after[loc] == objects[loc])
  {
    var uploaded := Uploaded(objects, images, uuids, uploadFaults);
    UploadedOutsideImages(objects, images, uuids, uploadFaults, loc);
    var record := RecordObject(PendingRecord(data, id, images, uuids, now));
    var at := RecordLocation(Slug.Slugify(data.title));
    if FirstFault(uploadFaults).None? && writeFault.None? {
      assert SubmitEffect(objects, data, id, images, uuids, now, uploadFaults, writeFault) == uploaded[at := record];
    } else {
      assert SubmitEffect(objects, data, id, images, uuids, now, uploadFaults, writeFault) == uploaded;
    }
  }

  lemma TitlesCollide(a: string, b: string)
    requires a == "My Project!" && b == "My Project?"
    ensures Slug.Slugify(a) == "my-project" && Slug.Slugify(b) == "my-project"
  {
    Slug.SlugCollision();
  }

  /** Two successful submissions whose titles give the same slug share one
      record location: after the first it holds the first record, after the
      second only the second. */
  lemma SameSlugOverwrites(objects: Objects, first: SubmissionFormData, second: SubmissionFormData,
                           id1: string, id2: string, images1: seq<File>, images2: seq<File>,
                           uuids1: seq<string>, uuids2: seq<string>, now1: string, now2: string,
                           faults1: seq<Option<StoreError>>, faults2: seq<Option<StoreError>>)
    requires Slug.Slugify(first.title) == Slug.Slugify(second.title)
    requires |uuids1| == |images1| && |faults1| == |images1| && |uuids2| == |images2| && |faults2| == |images2|
    requires forall i :: 0 <= i < |faults1| ==> faults1[i].None?
    requires forall i :: 0 <= i < |faults2| ==> faults2[i].None?
    ensures var at := RecordLocation(Slug.Slugify(first.title));
            var afterFirst := SubmitEffect(objects, first, id1, images1, uuids1, now1, faults1, None);
            var afterSecond := SubmitEffect(afterFirst, second, id2, images2, uuids2, now2, faults2, None);
            at in afterFirst
            && afterFirst[at] == RecordObject(PendingRecord(first, id1, images1, uuids1, now1))
            && at in afterSecond
            && afterSecond[at] == RecordObject(PendingRecord(second, id2, images2, uuids2, now2))
  {
    var afterFirst := SubmitEffect(objects, first, id1, images1, uuids1, now1, faults1, None);
    SubmitStoresRecord(objects, first, id1, images1, uuids1, now1, faults1);
    SubmitStoresRecord(afterFirst, second, id2, images2, uuids2, now2, faults2);
  }

  lemma SubmitStoresRecord(objects: Objects, data: SubmissionFormData, id: string, images: seq<File>,
                           uuids: seq<string>, now: string, faults: seq<Option<StoreError>>)
    requires |uuids| == |images| && |faults| == |images|
    requires forall i :: 0 <= i < |faults| ==> faults[i].None?
    ensures var at := RecordLocation(Slug.Slugify(data.title));
            var after := SubmitEffect(objects, data, id, images, uuids, now, faults, None);
            at in after && after[at] == RecordObject(PendingRecord(data, id, images, uuids, now))
  {
    assert FirstFault(faults).None?;
    SubmitWritesOneRecord(objects, data, id, images, uuids, now, faults, None,
                          RecordLocation(Slug.Slugify(data.title)));
  }

  /** The slug collision: when "My Project!" and then "My Project?" are
      submitted successfully, `my-project.json` first holds the first record
      and then only the second. */
  lemma CollidingTitlesOverwrite(objects: Objects, first: SubmissionFormData, second: SubmissionFormData,
                                 id1: string, id2: string, images1: seq<File>, images2: seq<File>,
                                 uuids1: seq<string>, uuids2: seq<string>, now1: string, now2: string,
                                 faults1: seq<Option<StoreError>>, faults2: seq<Option<StoreError>>)
    requires first.title == "My Project!" && second.title == "My Project?"
    requires |uuids1| == |images1| && |faults1| == |images1| && |uuids2| == |images2| && |faults2| == |images2|
    requires forall i :: 0 <= i < |faults1| ==> faults1[i].None?
    requires forall i :: 0 <= i < |faults2| ==> faults2[i].None?
    ensures var afterFirst := SubmitEffect(objects, first, id1, images1, uuids1, now1, faults1, None);
            var afterSecond := SubmitEffect(afterFirst, second, id2, images2, uuids2, now2, faults2, None);
            RecordLocation("my-project") in afterFirst
            && afterFirst[RecordLocation("my-project")] == RecordObject(PendingRecord(first, id1, images1, uuids1, now1))
            && RecordLocation("my-project") in afterSecond
            && afterSecond[RecordLocation("my-project")] == RecordObject(PendingRecord(second, id2, images2, uuids2, now2))
  {
    TitlesCollide(first.title, second.title);
    SameSlugOverwrites(objects, first, second, id1, id2, images1, images2, uuids1, uuids2, now1, now2,
                       faults1, faults2);
  }

  // ---------------------------------------------------------------------
  // getApprovedSubmissions and getProjectBySlug

  /** `key.replace(/\.json$/, "")`. */
  function StripJsonSuffix(key: string): string
  {
    if EndsWith(key, JsonSuffix) then key[..|key| - |JsonSuffix|] else key
  }

  /** What one listed key contributes to getApprovedSubmissions: the record,
      with its slug replaced by the key minus `.json`, when the key ends in
      `.json`, the fetch succeeds and the body parses; nothing otherwise. */
  function ReadListed(objects: Objects, key: string, fetchFaults: map<string, StoreError>): (r: Option<Submission>)
    ensures r.Some? ==> EndsWith(key, JsonSuffix) && key !in fetchFaults
                        && Location(ApprovedBucket, key) in objects && r.value.slug == StripJsonSuffix(key)
  {
    var loc := Location(ApprovedBucket, key);
    if !EndsWith(key, JsonSuffix) || key in fetchFaults || loc !in objects then None
    else match objects[loc].body
      case Record(s) => Some(s.(slug := StripJsonSuffix(key)))
      case Opaque(_) => None
  }

  /** The records getApprovedSubmissions returns for a listing, in listing order. */
  function Collect(objects: Objects, keys: seq<string>, fetchFaults: map<string, StoreError>): (r: seq<Submission>)
    ensures |r| <= |keys|
  {
    if keys == [] then []
    else
      var n := |keys| - 1;
      Collect(objects, keys[..n], fetchFaults)
      + match ReadListed(objects, keys[n], fetchFaults) case Some(s) => [s] case None => []
  }

  /** One more listed key: what it contributes is appended. */
  lemma CollectStep(objects: Objects, keys: seq<string>, fetchFaults: map<string, StoreError>, i: nat)
    requires i < |keys|
    ensures Collect(objects, keys[..i + 1], fetchFaults)
            == Collect(objects, keys[..i], fetchFaults)
               + match ReadListed(objects, keys[i], fetchFaults) case Some(s) => [s] case None => []
  {
    assert keys[..i + 1][..i] == keys[..i];
  }

  /** The read of one listed key inside getApprovedSubmissions: `.json` keys
      only, a failed fetch or an unparsable body dropped, the slug taken from
      the key. */
  method ReadKey(store: ObjectStore, key: string, fetchFaults: map<string, StoreError>)
    returns (r: Option<Submission>)
    ensures r == ReadListed(store.objects, key, fetchFaults)
  {
    r := None;
    if EndsWith(key, JsonSuffix) {
      var fault := if key in fetchFaults then Some(fetchFaults[key]) else None;
      var got := store.Get(Location(ApprovedBucket, key), fault);
      if got.Success? && got.value.body.Record? {
        r := Some(got.value.body.submission.(slug := key[..|key| - |JsonSuffix|]));
      }
    }
  }

  /** getApprovedSubmissions: lists the approved bucket and reads every
      `.json` key, dropping the ones that fail to fetch or parse; a failed
      listing yields no records. `listed` is the listing the service gave. */
  method GetApprovedSubmissions(store: ObjectStore, listFault: Option<StoreError>,
                                fetchFaults: map<string, StoreError>)
    returns (submissions: seq<Submission>, ghost listed: seq<string>)
    ensures listFault.Some? ==> listed == [] && submissions == []
    ensures listFault.None? ==> Enumerates(listed, KeysIn(store.objects, ApprovedBucket))
    ensures submissions == Collect(store.objects, listed, fetchFaults)
  {
    var listing := store.List(ApprovedBucket, listFault);
    if listing.Failure? {
      return [], [];
    }
    var keys := listing.value;
    listed := keys;
    submissions := [];
    var i := 0;
    while i < |keys|
      invariant 0 <= i <= |keys|
      invariant submissions == Collect(store.objects, keys[..i], fetchFaults)
    {
      CollectStep(store.objects, keys, fetchFaults, i);
      var got := ReadKey(store, keys[i], fetchFaults);
      if got.Some? {
        submissions := submissions + [got.value];
      }
      i := i + 1;
    }
    assert keys[..i] == keys;
  }

  /** The listed keys whose records make it into the result. */
  function Readable(objects: Objects, keys: seq<string>, fetchFaults: map<string, StoreError>): seq<string>
  {
    if keys == [] then []
    else
      var n := |keys| - 1;
      Readable(objects, keys[..n], fetchFaults)
      + if ReadListed(objects, keys[n], fetchFaults).Some? then [keys[n]] else []
  }

  /** Result i is the stored record of readable key i, unchanged except that
      its slug is the key minus `.json`; in particular its status is the one
      stored. Readable keys are listed keys ending in `.json`, in listing
      order, so there are never more results than listed keys. */
  lemma {:induction false} CollectFromReadable(objects: Objects, keys: seq<string>, fetchFaults: map<string, StoreError>)
    ensures var out := Collect(objects, keys, fetchFaults);
            var src := Readable(objects, keys, fetchFaults);
            |out| == |src| <= |keys|
            && (forall i :: 0 <= i < |src| ==> src[i] in keys && EndsWith(src[i], JsonSuffix))
            && (forall i :: 0 <= i < |src| ==>
                  var loc := Location(ApprovedBucket, src[i]);
                  loc in objects && objects[loc].body.Record?
                  && out[i] == objects[loc].body.submission.(slug := src[i][..|src[i]| - |JsonSuffix|]))
  {
    if keys != [] {
      var n := |keys| - 1;
      CollectFromReadable(objects, keys[..n], fetchFaults);
      var src0 := Readable(objects, keys[..n], fetchFaults);
      assert forall k :: k in keys[..n] ==> k in keys;
    }
  }

  /** The listing is read key by key: a corrupted or failing record removes
      itself and nothing else. */
  lemma {:induction false} CollectAppend(objects: Objects, a: seq<string>, b: seq<string>,
                                        fetchFaults: map<string, StoreError>)
    ensures Collect(objects, a + b, fetchFaults) == Collect(objects, a, fetchFaults) + Collect(objects, b, fetchFaults)
    decreases |b|
  {
    if b == [] {
      assert a + b == a;
    } else {
      var n := |b| - 1;
      CollectAppend(objects, a, b[..n], fetchFaults);
      assert (a + b)[..|a + b| - 1] == a + b[..n];
      assert (a + b)[|a + b| - 1] == b[n];
    }
  }

  /** A key that cannot be read is dropped without affecting the records
      around it. */
  lemma UnreadableKeyDropped(objects: Objects, before: seq<string>, bad: string, after: seq<string>,
                             fetchFaults: map<string, StoreError>)
    requires ReadListed(objects, bad, fetchFaults).None?
    ensures Collect(objects, before + [bad] + after, fetchFaults)
            == Collect(objects, before, fetchFaults) + Collect(objects, after, fetchFaults)
  {
    var upTo := before + [bad];
    assert Collect(objects, [bad], fetchFaults) == [] by {
      assert [bad][..0] == [];
    }
    CollectAppend(objects, before, [bad], fetchFaults);
    assert Collect(objects, upTo, fetchFaults) == Collect(objects, before, fetchFaults);
    CollectAppend(objects, upTo, after, fetchFaults);
  }

  /** When every listed key reads back, there is one record per key. */
  lemma {:induction false} CollectAllReadable(objects: Objects, keys: seq<string>, fetchFaults: map<string, StoreError>)
    requires forall i :: 0 <= i < |keys| ==> ReadListed(objects, keys[i], fetchFaults).Some?
    ensures |Collect(objects, keys, fetchFaults)| == |keys|
  {
    if keys != [] {
      var n := |keys| - 1;
      CollectAllReadable(objects, keys[..n], fetchFaults);
    }
  }

  /** What getProjectBySlug returns: the record stored under `<slug>.json` in
      the approved bucket, as stored, or `None` for an absent key, a failed
      request or a body that does not parse. */
  function FindBySlug(objects: Objects, slug: string, fault: Option<StoreError>): (r: Option<Submission>)
    ensures r.Some? <==> fault.None? && Location(ApprovedBucket, slug + JsonSuffix) in objects
                         && objects[Location(ApprovedBucket, slug + JsonSuffix)].body.Record?
    ensures r.Some? ==> r.value == objects[Location(ApprovedBucket, slug + JsonSuffix)].body.submission
  {
    var loc := Location(ApprovedBucket, slug + JsonSuffix);
    if fault.Some? || loc !in objects then None
    else match objects[loc].body
      case Record(s) => Some(s)
      case Opaque(_) => None
  }

  /** getProjectBySlug: never fails; `NoSuchKey` and every other failure,
      including a body that does not parse, come back as `None`. */
  method GetProjectBySlug(store: ObjectStore, slug: string, fault: Option<StoreError>)
    returns (r: Option<Submission>)
    ensures r == FindBySlug(store.objects, slug, fault)
  {
    var got := store.Get(Location(ApprovedBucket, slug + JsonSuffix), fault);
    match got {
      case Failure(e) =>
        // NoSuchKey is answered with null at once; any other error is rethrown
        // to the outer handler, which also answers null.
        r := None;
      case Success(obj) =>
        if obj.body.Record? {
          r := Some(obj.body.submission);
        } else {
          r := None;
        }
    }
  }

  lemma StripAppendedSuffix(slug: string)
    ensures EndsWith(slug + JsonSuffix, JsonSuffix)
    ensures StripJsonSuffix(slug + JsonSuffix) == slug
  {
    EndsWithAppend(slug, JsonSuffix);
    assert (slug + JsonSuffix)[..|slug|] == slug;
  }

  /** The two read paths agree: a record the listing returns under slug `s`
      is found by getProjectBySlug(s), with the same content; only the listing
      rewrites the slug. So every link built from a listed slug resolves. */
  lemma ReadPathsAgree(objects: Objects, slug: string, fetchFaults: map<string, StoreError>)
    requires slug + JsonSuffix !in fetchFaults
    ensures var listedRead := ReadListed(objects, slug + JsonSuffix, fetchFaults);
            var direct := FindBySlug(objects, slug, None);
            (listedRead.Some? <==> direct.Some?)
            && (direct.Some? ==> listedRead.value == direct.value.(slug := slug))
  {
    StripAppendedSuffix(slug);
  }

  /** Submitting changes nothing the public read paths see: the record goes
      to the pending bucket and approval happens elsewhere. */
  lemma {:induction false} SubmitInvisibleToReaders(objects: Objects, data: SubmissionFormData, id: string,
                                                   images: seq<File>, uuids: seq<string>, now: string,
                                                   uploadFaults: seq<Option<StoreError>>,
                                                   writeFault: Option<StoreError>, keys: seq<string>,
                                                   fetchFaults: map<string, StoreError>, slug: string)
    requires |uuids| == |images| && |uploadFaults| == |images|
    ensures var after := SubmitEffect(objects, data, id, images, uuids, now, uploadFaults, writeFault);
            Collect(after, keys, fetchFaults) == Collect(objects, keys, fetchFaults)
            && FindBySlug(after, slug, None) == FindBySlug(objects, slug, None)
  {
    var after := SubmitEffect(objects, data, id, images, uuids, now, uploadFaults, writeFault);
    forall key | true
      ensures ReadListed(after, key, fetchFaults) == ReadListed(objects, key, fetchFaults)
    {
      SubmitKeepsApproved(objects, data, id, images, uuids, now, uploadFaults, writeFault, key);
    }
    SubmitKeepsApproved(objects, data, id, images, uuids, now, uploadFaults, writeFault, slug + JsonSuffix);
    CollectUnchanged(objects, after, keys, fetchFaults);
  }

  lemma SubmitKeepsApproved(objects: Objects, data: SubmissionFormData, id: string,
                            images: seq<File>, uuids: seq<string>, now: string,
                            uploadFaults: seq<Option<StoreError>>,
                            writeFault: Option<StoreError>, key: string)
    requires |uuids| == |images| && |uploadFaults| == |images|
    ensures var after := SubmitEffect(objects, data, id, images, uuids, now, uploadFaults, writeFault);
            var loc := Location(ApprovedBucket, key);
            (loc in after <==> loc in objects) && (loc in objects ==> after[loc] == objects[loc])
  {
    var loc := Location(ApprovedBucket, key);
    assert loc != RecordLocation(Slug.Slugify(data.title));
    SubmitWritesOneRecord(objects, data, id, images, uuids, now, uploadFaults, writeFault, loc);
  }

  lemma {:induction false} CollectUnchanged(before: Objects, after: Objects, keys: seq<string>,
                                           fetchFaults: map<string, StoreError>)
    requires forall key :: ReadListed(after, key, fetchFaults) == ReadListed(before, key, fetchFaults)
    ensures Collect(after, keys, fetchFaults) == Collect(before, keys, fetchFaults)
  {
    if keys != [] {
      CollectUnchanged(before, after, keys[..|keys| - 1], fetchFaults);
    }
  }
}
