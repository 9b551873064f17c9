/**
 `main`: fetch the candidates of one calendar year from every repository,
 draw a day-aware random sample of them, and count the sampled pictures that
 were downloaded.

 The random stream, the download outcome of each remote picture and the
 responses of every service are parameters. The resize bounds and the output
 directory only reach the downloads, so they are not modelled.
 */
module Rummy {
  import opened Outcomes
  import opened DateTimes
  import opened Pictures
  import GooglePhotos
  import Files
  import Sampler

  /** A source of pictures. */
  datatype Repository =
    | GooglePhotosRepository(pages: seq<GooglePhotos.Page>)  // one account's listing responses
    | FileRepository(files: seq<Files.FileEntry>)           // the files below one directory

  /** A repository the model can fetch from: a remote listing must end. */
  predicate Serviceable(repo: Repository) {
    repo.GooglePhotosRepository? ==> GooglePhotos.EndsListing(repo.pages)
  }

  /** `repository.get_pictures(min_date, max_date)`. */
  function FetchFrom(repo: Repository, minDate: DateTime, maxDate: DateTime): (r: Result<seq<Picture>, GooglePhotos.FetchError>)
    requires Serviceable(repo)
    ensures repo.FileRepository? ==> r.Ok?
    ensures r.Ok? ==> forall p :: p in r.value ==> InRange(p.date, minDate, maxDate)
  {
    match repo
    case GooglePhotosRepository(pages) =>
      (match GooglePhotos.GetPictures(pages, minDate, maxDate)
       case Err(e) => Err(e)
       case Ok(fetched) => Ok(fetched.pictures))
    case FileRepository(files) => Ok(Files.GetPictures(files, minDate, maxDate))
  }

  /** The window of `main`: midnight on 1 January of `year`, and of the year after. */
  datatype Window = Window(minDate: DateTime, maxDate: DateTime)

  function YearWindow(year: int): (w: Window)
    requires 1900 <= year < 3000
    ensures w.minDate == NewYear(year) && w.maxDate == NewYear(year + 1)
    ensures Less(w.minDate, w.maxDate)
  {
    Window(NewYear(year), NewYear(year + 1))
  }

  /** The window holds exactly the datetimes of its calendar year. */
  lemma YearWindowIsTheYear(year: int, d: DateTime)
    requires 1900 <= year < 3000
    ensures InRange(d, YearWindow(year).minDate, YearWindow(year).maxDate) <==> d.year == year
  {
    var w := YearWindow(year);
    if d.year == year {
      assert !Less(d, w.minDate) by {
        assert d.month >= 1 && d.day >= 1;
        assert d.hour >= 0 && d.minute >= 0 && d.second >= 0 && d.micro >= 0;
      }
    }
  }

  /** What each repository's fetch gives, in repository order. */
  function Responses(repos: seq<Repository>, minDate: DateTime, maxDate: DateTime): (rs: seq<Result<seq<Picture>, GooglePhotos.FetchError>>)
    requires forall k :: 0 <= k < |repos| ==> Serviceable(repos[k])
    ensures |rs| == |repos|
    ensures forall k :: 0 <= k < |repos| ==> rs[k] == FetchFrom(repos[k], minDate, maxDate)
  {
    seq(|repos|, k requires 0 <= k < |repos| => FetchFrom(repos[k], minDate, maxDate))
  }

  /** The responses joined in order; the first failure aborts the rest. */
  function Concat(rs: seq<Result<seq<Picture>, GooglePhotos.FetchError>>): Result<seq<Picture>, GooglePhotos.FetchError> {
    if |rs| == 0 then Ok([])
    else
      match rs[0]
      case Err(e) => Err(e)
      case Ok(first) =>
        match Concat(rs[1..])
        case Err(e) => Err(e)
        case Ok(rest) => Ok(first + rest)
  }

  /** Joining succeeds exactly when every response does, and then holds exactly their pictures. */
  lemma {:induction false} ConcatMembers(rs: seq<Result<seq<Picture>, GooglePhotos.FetchError>>)
    ensures Concat(rs).Ok? <==> forall k :: 0 <= k < |rs| ==> rs[k].Ok?
    ensures Concat(rs).Ok? ==> forall p :: p in Concat(rs).value <==>
      exists k :: 0 <= k < |rs| && rs[k].Ok? && p in rs[k].value
  {
    if |rs| > 0 {
      var tail := rs[1..];
      ConcatMembers(tail);
      assert forall k :: 1 <= k < |rs| ==> rs[k] == tail[k - 1];
      if Concat(rs).Ok? {
        forall p | p in Concat(rs).value
          ensures exists k :: 0 <= k < |rs| && rs[k].Ok? && p in rs[k].value
        {
          if p !in rs[0].value {
            var k :| 0 <= k < |tail| && tail[k].Ok? && p in tail[k].value;
            assert rs[k + 1] == tail[k];
          }
        }
      } else if rs[0].Ok? {
        var k :| 0 <= k < |tail| && !tail[k].Ok?;
        assert rs[k + 1] == tail[k];
      }
    }
  }

  /** A failed join carries the error of the first failed response. */
  lemma {:induction false} ConcatFailsFirst(rs: seq<Result<seq<Picture>, GooglePhotos.FetchError>>)
    ensures Concat(rs).Err? ==> exists k :: (0 <= k < |rs| && rs[k] == Err(Concat(rs).error) &&
      forall m :: 0 <= m < k ==> rs[m].Ok?)
  {
    if |rs| > 0 && rs[0].Ok? {
      var tail := rs[1..];
      ConcatFailsFirst(tail);
      if Concat(rs).Err? {
        var k :| 0 <= k < |tail| && tail[k] == Err(Concat(rs).error) &&
          forall m :: 0 <= m < k ==> tail[m].Ok?;
        assert rs[k + 1] == tail[k];
        assert forall m :: 1 <= m < k + 1 ==> rs[m] == tail[m - 1];
      }
    }
  }

  /** One more response extends a successful join by its pictures, after the earlier ones. */
  lemma {:induction false} ConcatAppend(rs: seq<Result<seq<Picture>, GooglePhotos.FetchError>>,
                                        x: Result<seq<Picture>, GooglePhotos.FetchError>)
    ensures Concat(rs).Err? ==> Concat(rs + [x]) == Concat(rs)
    ensures Concat(rs).Ok? && x.Err? ==> Concat(rs + [x]) == x
    ensures Concat(rs).Ok? && x.Ok? ==> Concat(rs + [x]) == Ok(Concat(rs).value + x.value)
  {
    if |rs| == 0 {
      assert rs + [x] == [x] && [x][0] == x && [x][1..] == [];
      if x.Ok? {
        assert Concat([x]) == Ok(x.value + []);
        assert Concat(rs) == Ok([]);
        assert x.value + [] == [] + x.value;
      }
    } else {
      var tail := rs[1..];
      ConcatAppend(tail, x);
      assert (rs + [x])[0] == rs[0] && (rs + [x])[1..] == tail + [x];
      if rs[0].Ok? && Concat(tail).Ok? && x.Ok? {
        assert rs[0].value + (Concat(tail).value + x.value) == (rs[0].value + Concat(tail).value) + x.value;
      }
    }
  }

  /** The nested comprehension over repositories: each repository's pictures in turn. */
  function FindPhotos(repos: seq<Repository>, minDate: DateTime, maxDate: DateTime): (r: Result<seq<Picture>, GooglePhotos.FetchError>)
    requires forall k :: 0 <= k < |repos| ==> Serviceable(repos[k])
    ensures r.Ok? ==> forall p :: p in r.value ==> InRange(p.date, minDate, maxDate)
  {
    var rs := Responses(repos, minDate, maxDate);
    ConcatMembers(rs);
    Concat(rs)
  }

  /**
   Gathering succeeds exactly when every repository does, and then holds
   exactly the pictures the repositories returned.
   */
  lemma FindPhotosGathers(repos: seq<Repository>, minDate: DateTime, maxDate: DateTime)
    requires forall k :: 0 <= k < |repos| ==> Serviceable(repos[k])
    ensures var r := FindPhotos(repos, minDate, maxDate);
      r.Ok? <==> forall k :: 0 <= k < |repos| ==> FetchFrom(repos[k], minDate, maxDate).Ok?
    ensures var r := FindPhotos(repos, minDate, maxDate);
      r.Ok? ==> forall p :: p in r.value <==>
        exists k :: 0 <= k < |repos| && FetchFrom(repos[k], minDate, maxDate).Ok? &&
          p in FetchFrom(repos[k], minDate, maxDate).value
  {
    ConcatMembers(Responses(repos, minDate, maxDate));
  }

  /** The error gathering raises is that of the first repository that fails. */
  lemma FindPhotosFailsFirst(repos: seq<Repository>, minDate: DateTime, maxDate: DateTime)
    requires forall k :: 0 <= k < |repos| ==> Serviceable(repos[k])
    ensures var r := FindPhotos(repos, minDate, maxDate);
      r.Err? ==> exists k :: (0 <= k < |repos| && FetchFrom(repos[k], minDate, maxDate) == Err(r.error) &&
        forall m :: 0 <= m < k ==> FetchFrom(repos[m], minDate, maxDate).Ok?)
  {
    ConcatFailsFirst(Responses(repos, minDate, maxDate));
  }

  /**
   One more repository extends a successful gathering by its own pictures,
   placed after those of the repositories before it.
   */
  lemma FindPhotosAppend(repos: seq<Repository>, repo: Repository, minDate: DateTime, maxDate: DateTime)
    requires forall k :: 0 <= k < |repos| ==> Serviceable(repos[k])
    requires Serviceable(repo)
    ensures var before, after := FindPhotos(repos, minDate, maxDate), FindPhotos(repos + [repo], minDate, maxDate);
      && (before.Err? ==> after == before)
      && (before.Ok? && FetchFrom(repo, minDate, maxDate).Err? ==> after == FetchFrom(repo, minDate, maxDate))
      && (before.Ok? && FetchFrom(repo, minDate, maxDate).Ok? ==>
            after == Ok(before.value + FetchFrom(repo, minDate, maxDate).value))
  {
    var all := repos + [repo];
    assert forall k :: 0 <= k < |all| ==> Serviceable(all[k]);
    var rs := Responses(repos, minDate, maxDate);
    assert Responses(all, minDate, maxDate) == rs + [FetchFrom(repo, minDate, maxDate)];
    ConcatAppend(rs, FetchFrom(repo, minDate, maxDate));
  }

  /** Whether the j-th download of the sample succeeds: a local copy always does. */
  predicate Downloaded(sample: seq<Picture>, remoteOk: nat -> bool, j: nat)
    requires j < |sample|
  {
    sample[j].FilePicture? || remoteOk(j)
  }

  /** `download_count`: how many of the sampled pictures were downloaded. */
  function DownloadTally(sample: seq<Picture>, remoteOk: nat -> bool): (n: nat)
    ensures n <= |sample|
  {
    if |sample| == 0 then 0
    else
      var init := sample[..|sample| - 1];
      DownloadTally(init, remoteOk) + (if Downloaded(sample, remoteOk, |sample| - 1) then 1 else 0)
  }

  /** A prefix of the sample has the same download outcomes. */
  lemma DownloadedPrefix(sample: seq<Picture>, remoteOk: nat -> bool, j: nat, n: nat)
    requires j < n <= |sample|
    ensures Downloaded(sample[..n], remoteOk, j) == Downloaded(sample, remoteOk, j)
  {
  }

  /** Every sampled picture was downloaded exactly when the tally is the sample length. */
  lemma {:induction false} DownloadTallyAll(sample: seq<Picture>, remoteOk: nat -> bool)
    ensures DownloadTally(sample, remoteOk) == |sample| <==>
      forall j :: 0 <= j < |sample| ==> Downloaded(sample, remoteOk, j)
  {
    if |sample| > 0 {
      var init := sample[..|sample| - 1];
      DownloadTallyAll(init, remoteOk);
      forall j | 0 <= j < |init| {
        DownloadedPrefix(sample, remoteOk, j, |init|);
      }
    }
  }

  /** No sampled picture was downloaded exactly when the tally is zero. */
  lemma {:induction false} DownloadTallyNone(sample: seq<Picture>, remoteOk: nat -> bool)
    ensures DownloadTally(sample, remoteOk) == 0 <==>
      forall j :: 0 <= j < |sample| ==> !Downloaded(sample, remoteOk, j)
  {
    if |sample| > 0 {
      var init := sample[..|sample| - 1];
      DownloadTallyNone(init, remoteOk);
      forall j | 0 <= j < |init| {
        DownloadedPrefix(sample, remoteOk, j, |init|);
      }
    }
  }

  /** What `main` reports: the candidates fetched, the sample drawn, and the downloads that succeeded. */
  datatype Summary = Summary(candidates: seq<Picture>, selected: seq<Picture>, downloaded: nat)

  /** `main(repositories, year, sample_size)`. */
  function Main(repositories: seq<Repository>, year: int, sampleSize: int,
                variate: nat -> real, remoteOk: nat -> bool): (r: Result<Summary, GooglePhotos.FetchError>)
    requires 1900 <= year < 3000 && sampleSize > 0
    requires forall k :: 0 <= k < |repositories| ==> Serviceable(repositories[k])
    ensures r.Ok? ==> forall p :: p in r.value.candidates ==> p.date.year == year
    ensures r.Ok? ==> forall p :: p in r.value.selected ==> p in r.value.candidates
    ensures r.Ok? ==> (|r.value.selected| ==
      if sampleSize < |r.value.candidates| then sampleSize else |r.value.candidates|)
    ensures r.Ok? ==> r.value.downloaded <= |r.value.selected|
    ensures r.Ok? <==> FindPhotos(repositories, YearWindow(year).minDate, YearWindow(year).maxDate).Ok?
    ensures r.Ok? ==> r.value.candidates == FindPhotos(repositories, YearWindow(year).minDate, YearWindow(year).maxDate).value
    ensures r.Ok? ==> r.value.selected == Sampler.SelectRandomPictures(r.value.candidates, sampleSize, variate)
    ensures r.Ok? ==> r.value.downloaded == DownloadTally(r.value.selected, remoteOk)
    ensures r.Err? ==> r.error == FindPhotos(repositories, YearWindow(year).minDate, YearWindow(year).maxDate).error
  {
    var w := YearWindow(year);
    match FindPhotos(repositories, w.minDate, w.maxDate)
    case Err(e) => Err(e)
    case Ok(candidates) =>
      assert forall p :: p in candidates ==> p.date.year == year by {
        forall p | p in candidates
          ensures p.date.year == year
        {
          YearWindowIsTheYear(year, p.date);
        }
      }
      var selected := Sampler.SelectRandomPictures(candidates, sampleSize, variate);
      Ok(Summary(candidates, selected, DownloadTally(selected, remoteOk)))
  }

  /**
   `main` fails exactly when some repository's fetch of the year fails, with
   the first failure; otherwise its candidates are exactly the pictures of
   that year the repositories returned, and every sampled picture was
   downloaded exactly when the tally equals the sample size.
   */
  lemma MainReports(repositories: seq<Repository>, year: int, sampleSize: int,
                    variate: nat -> real, remoteOk: nat -> bool)
    requires 1900 <= year < 3000 && sampleSize > 0
    requires forall k :: 0 <= k < |repositories| ==> Serviceable(repositories[k])
    ensures var r, w := Main(repositories, year, sampleSize, variate, remoteOk), YearWindow(year);
      r.Ok? <==> forall k :: 0 <= k < |repositories| ==> FetchFrom(repositories[k], w.minDate, w.maxDate).Ok?
    ensures var r, w := Main(repositories, year, sampleSize, variate, remoteOk), YearWindow(year);
      r.Err? ==> exists k :: (0 <= k < |repositories| && FetchFrom(repositories[k], w.minDate, w.maxDate) == Err(r.error) &&
        forall m :: 0 <= m < k ==> FetchFrom(repositories[m], w.minDate, w.maxDate).Ok?)
    ensures var r, w := Main(repositories, year, sampleSize, variate, remoteOk), YearWindow(year);
      r.Ok? ==> forall p :: p in r.value.candidates <==>
        exists k :: 0 <= k < |repositories| && FetchFrom(repositories[k], w.minDate, w.maxDate).Ok? &&
          p in FetchFrom(repositories[k], w.minDate, w.maxDate).value
    ensures var r := Main(repositories, year, sampleSize, variate, remoteOk);
      r.Ok? ==> (r.value.downloaded == |r.value.selected| <==>
        forall j :: 0 <= j < |r.value.selected| ==> Downloaded(r.value.selected, remoteOk, j))
  {
    var w := YearWindow(year);
    FindPhotosGathers(repositories, w.minDate, w.maxDate);
    FindPhotosFailsFirst(repositories, w.minDate, w.maxDate);
    var r := Main(repositories, year, sampleSize, variate, remoteOk);
    if r.Ok? {
      DownloadTallyAll(r.value.selected, remoteOk);
    }
  }
}
