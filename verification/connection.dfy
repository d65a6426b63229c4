/** The wave-batched image download of src/connection.rs.

    `async_get_image_batch` treats its URL vector as a stack. The outer loop
    runs once for every start index 0, 5, 10, ... below the initial length
    (the stride 5 is written into the loop, whatever the concurrency is);
    each pass pops up to `concurrent_process` URLs from the back, spawns one
    download per URL tagged `page_no = i + j`, waits for the whole wave and
    appends its results in spawn order. A failed download makes one of the
    two `unwrap`s abort, so no result comes back at all.

    Downloads are the oracle `fetch`; `None` is a network or decoding
    failure. Spawn-and-join is modelled sequentially: `join_all` yields its
    results in spawn order, so the timing of the tasks does not matter. */
module Connection {
  import opened Common
  import opened Images

  /** One spawned `async_get_image(url, page_no)` task. */
  datatype Task = Task(url: Url, pageNo: int)

  /** The step of the outer loop as written in the source. */
  const Stride: nat := 5

  // ---------------------------------------------------------------------
  // Closed form of the schedule
  // ---------------------------------------------------------------------

  /** Passes of `(0..n).step_by(stride)`. */
  function WaveCount(n: nat, stride: nat): nat
    requires stride > 0
  {
    (n + stride - 1) / stride
  }

  /** URLs popped in total: each pass pops up to `cp`, and pops on an empty
      stack do nothing. A non-positive `cp` makes `0..cp` empty. */
  function PopCount(n: nat, stride: nat, cp: int): nat
    requires stride > 0
  {
    if cp <= 0 then 0 else Min(n, WaveCount(n, stride) * cp)
  }

  /** Page number given to the k-th pop: it happens in pass k / cp, whose
      start index is stride * (k / cp), at slot k % cp. */
  function SlotPage(k: nat, stride: nat, cp: int): int
    requires cp > 0
  {
    stride * (k / cp) + k % cp
  }

  /** Every task the loop would spawn if no download failed, in spawn
      order: the k-th pop takes the k-th URL counted from the back. */
  function Schedule(batch: seq<Url>, stride: nat, cp: int): (plan: seq<Task>)
    requires stride > 0
    ensures |plan| == PopCount(|batch|, stride, cp)
  {
    if cp <= 0 then []
    else
      var total := PopCount(|batch|, stride, cp);
      seq(total, k requires 0 <= k < total => Task(batch[|batch| - 1 - k], SlotPage(k, stride, cp)))
  }

  /** Every task's download succeeds. */
  predicate AllFetched(tasks: seq<Task>, fetch: Url -> Option<Bytes>)
  {
    forall k :: 0 <= k < |tasks| ==> fetch(tasks[k].url).Some?
  }

  /** The images the tasks produce, in spawn order. */
  function Fetched(tasks: seq<Task>, fetch: Url -> Option<Bytes>): seq<MangaImage>
    requires AllFetched(tasks, fetch)
  {
    seq(|tasks|, k requires 0 <= k < |tasks| => MangaImage(tasks[k].pageNo, fetch(tasks[k].url).value))
  }

  /** Two runs of tasks that all succeed give their images one after the
      other. */
  lemma FetchedAppend(a: seq<Task>, b: seq<Task>, fetch: Url -> Option<Bytes>)
    requires AllFetched(a, fetch) && AllFetched(b, fetch)
    ensures AllFetched(a + b, fetch)
    ensures Fetched(a + b, fetch) == Fetched(a, fetch) + Fetched(b, fetch)
  {
    assert forall k :: 0 <= k < |a + b| ==> (a + b)[k] == (if k < |a| then a[k] else b[k - |a|]);
  }

  /** A failing task in a wave that continues the plan is a failing task of
      the plan. */
  lemma FailedWave(plan: seq<Task>, spawned: seq<Task>, wave: seq<Task>, fetch: Url -> Option<Bytes>)
    requires |spawned| + |wave| <= |plan| && spawned + wave == plan[..|spawned| + |wave|]
    requires !AllFetched(wave, fetch)
    ensures !AllFetched(spawned + wave, fetch) && !AllFetched(plan, fetch)
  {
    var k :| 0 <= k < |wave| && fetch(wave[k].url).None?;
    assert (spawned + wave)[|spawned| + k] == wave[k];
    assert plan[|spawned| + k] == wave[k];
  }

  /** Image k is page k and holds the bytes of the k-th URL from the back. */
  predicate PagesInOrder(batch: seq<Url>, images: seq<MangaImage>, fetch: Url -> Option<Bytes>)
  {
    && |images| == |batch|
    && forall k :: 0 <= k < |images| ==>
         images[k].pageNo == k && fetch(batch[|batch| - 1 - k]) == Some(images[k].image)
  }

  // ---------------------------------------------------------------------
  // Arithmetic facts about the passes
  // ---------------------------------------------------------------------

  lemma MulAtLeast(a: int, d: int)
    requires a >= 1 && d > 0
    ensures a * d >= d
  {
  }

  /** Euclidean division is determined by quotient and remainder. */
  lemma DivModUnique(k: int, d: int, q: int, r: int)
    requires d > 0 && 0 <= r < d && k == q * d + r
    ensures k / d == q && k % d == r
  {
    var q', r' := k / d, k % d;
    assert k == q' * d + r';
    if q' > q {
      assert (q' - q) * d == q' * d - q * d;
      MulAtLeast(q' - q, d);
    } else if q' < q {
      assert (q - q') * d == q * d - q' * d;
      MulAtLeast(q - q', d);
    }
  }

  /** The j-th slot of pass w is page stride * w + j. */
  lemma SlotPageInWave(w: nat, j: nat, stride: nat, cp: int)
    requires 0 <= j < cp
    ensures SlotPage(w * cp + j, stride, cp) == stride * w + j
  {
    DivModUnique(w * cp + j, cp, w, j);
  }

  /** A pass starting below n is not the last pass counted. */
  lemma PassBelowLength(n: nat, stride: nat, w: nat)
    requires stride > 0 && stride * w < n
    ensures w + 1 <= WaveCount(n, stride)
  {
    var a := n + stride - 1;
    var q, r := a / stride, a % stride;
    assert a == q * stride + r;
    if q < w + 1 {
      MulAtLeast(w + 1 - q, stride);
    }
  }

  /** When the loop stops at start index stride * w >= n, w passes ran. */
  lemma PassesWhenDone(n: nat, stride: nat, w: nat)
    requires stride > 0 && n <= stride * w < n + stride
    ensures w == WaveCount(n, stride)
  {
    DivModUnique(n + stride - 1, stride, w, n + stride - 1 - stride * w);
  }

  lemma MulMonotone(a: nat, b: nat, c: nat)
    requires a <= b
    ensures a * c <= b * c
  {
    if a < b {
      MulAtLeast(b - a, c + 1);
      assert (b - a) * c >= 0;
      assert b * c - a * c == (b - a) * c;
    }
  }

  // ---------------------------------------------------------------------
  // The wave loop
  // ---------------------------------------------------------------------

  /** One pass of the inner loop: `cp` calls to `pop`, of which those on a
      non-empty stack spawn a task. Slot j takes the j-th URL from the back
      and is numbered `start + j`. */
  method PopWave(stack: seq<Url>, cp: int, start: int) returns (rest: seq<Url>, wave: seq<Task>)
    ensures |wave| == (if cp <= 0 then 0 else Min(|stack|, cp))
    ensures rest == stack[..|stack| - |wave|]
    ensures forall j :: 0 <= j < |wave| ==> wave[j] == Task(stack[|stack| - 1 - j], start + j)
  {
    rest := stack;
    wave := [];
    var j := 0;
    while j < cp
      invariant 0 <= j && (cp > 0 ==> j <= cp) && (cp <= 0 ==> j == 0)
      invariant |wave| == Min(|stack|, j)
      invariant rest == stack[..|stack| - |wave|]
      invariant forall t :: 0 <= t < |wave| ==> wave[t] == Task(stack[|stack| - 1 - t], start + t)
    {
      if |rest| > 0 {
        var url := rest[|rest| - 1];
        rest := rest[..|rest| - 1];
        wave := wave + [Task(url, start + j)];
      }
      j := j + 1;
    }
  }

  /** `join_all` followed by the two `unwrap`s: the images in spawn order,
      or `None` as soon as one download failed. */
  method JoinWave(wave: seq<Task>, fetch: Url -> Option<Bytes>) returns (results: Option<seq<MangaImage>>)
    ensures results.Some? <==> AllFetched(wave, fetch)
    ensures results.Some? ==> results.value == Fetched(wave, fetch)
  {
    var done: seq<MangaImage> := [];
    var k := 0;
    while k < |wave|
      invariant 0 <= k <= |wave|
      invariant AllFetched(wave[..k], fetch) && done == Fetched(wave[..k], fetch)
    {
      var r := fetch(wave[k].url);
      if r.None? {
        return None;
      }
      done := done + [MangaImage(wave[k].pageNo, r.value)];
      k := k + 1;
      assert wave[..k] == wave[..k - 1] + [wave[k - 1]];
    }
    assert wave[..k] == wave;
    return Some(done);
  }

  /** A pass started at index stride * w below n continues the schedule
      exactly where the previous passes left it. */
  lemma PassExtendsSchedule(batch: seq<Url>, stride: nat, cp: int, w: nat, spawned: seq<Task>, wave: seq<Task>)
    requires stride > 0 && cp > 0 && stride * w < |batch|
    requires |spawned| == Min(|batch|, w * cp)
    requires |spawned| <= |Schedule(batch, stride, cp)|
    requires spawned == Schedule(batch, stride, cp)[..|spawned|]
    requires |wave| == Min(|batch| - |spawned|, cp)
    requires forall j :: 0 <= j < |wave| ==> wave[j] == Task(batch[|batch| - |spawned| - 1 - j], stride * w + j)
    ensures |spawned| + |wave| == Min(|batch|, (w + 1) * cp)
    ensures |spawned| + |wave| <= |Schedule(batch, stride, cp)|
    ensures spawned + wave == Schedule(batch, stride, cp)[..|spawned| + |wave|]
  {
    PassLengths(|batch|, stride, cp, w, |spawned|, |wave|);
    var plan := Schedule(batch, stride, cp);
    if |wave| > 0 {
      WaveContinuesPlan(batch, stride, cp, w, |spawned|, wave);
    }
    PrefixExtends(plan, spawned, wave);
  }

  /** The tasks of pass w are the plan's entries after the first w * cp. */
  lemma WaveContinuesPlan(batch: seq<Url>, stride: nat, cp: int, w: nat, s: nat, wave: seq<Task>)
    requires stride > 0 && cp > 0 && s == w * cp && |wave| <= cp
    requires s + |wave| <= |Schedule(batch, stride, cp)|
    requires forall j :: 0 <= j < |wave| ==> wave[j] == Task(batch[|batch| - s - 1 - j], stride * w + j)
    ensures forall j :: 0 <= j < |wave| ==> Schedule(batch, stride, cp)[s + j] == wave[j]
  {
    forall j | 0 <= j < |wave|
      ensures Schedule(batch, stride, cp)[s + j] == wave[j]
    {
      ScheduleAt(batch, stride, cp, s + j);
      SlotPageInWave(w, j, stride, cp);
    }
  }

  /** A prefix of a sequence followed by the entries that come next is a
      longer prefix. */
  lemma PrefixExtends<T>(plan: seq<T>, done: seq<T>, next: seq<T>)
    requires |done| + |next| <= |plan| && done == plan[..|done|]
    requires forall j :: 0 <= j < |next| ==> plan[|done| + j] == next[j]
    ensures done + next == plan[..|done| + |next|]
  {
    assert forall t :: 0 <= t < |done| + |next| ==> (done + next)[t] == plan[t];
  }

  /** The counts of a pass: it pops min(cp, what is left) URLs, and a pass
      that pops anything starts right after w full passes. */
  lemma PassLengths(n: nat, stride: nat, cp: int, w: nat, s: nat, wl: nat)
    requires stride > 0 && cp > 0 && stride * w < n
    requires s == Min(n, w * cp) && wl == Min(n - s, cp)
    ensures s + wl == Min(n, (w + 1) * cp)
    ensures s + wl <= PopCount(n, stride, cp)
    ensures wl > 0 ==> s == w * cp
  {
    PassBelowLength(n, stride, w);
    MulMonotone(w + 1, WaveCount(n, stride), cp);
    assert (w + 1) * cp == w * cp + cp;
  }

  /** The loop of `async_get_image_batch` with its outer step as a
      parameter. `rest` is what is left of the stack, `spawned` every task
      spawned, `waves` the passes completed and `images` the result, `None`
      when a download failed and the program aborted. */
  method FetchInWaves(batch: seq<Url>, stride: nat, cp: int, fetch: Url -> Option<Bytes>)
    returns (rest: seq<Url>, spawned: seq<Task>, waves: nat, images: Option<seq<MangaImage>>)
    requires stride > 0
    ensures |spawned| <= |Schedule(batch, stride, cp)|
    ensures spawned == Schedule(batch, stride, cp)[..|spawned|]
    ensures rest == batch[..|batch| - |spawned|]
    ensures images.Some? <==> AllFetched(Schedule(batch, stride, cp), fetch)
    ensures images.None? ==> !AllFetched(spawned, fetch)
    ensures images.Some? ==>
              && spawned == Schedule(batch, stride, cp)
              && waves == WaveCount(|batch|, stride)
              && images.value == Fetched(spawned, fetch)
  {
    var n := |batch|;
    ghost var plan := Schedule(batch, stride, cp);
    rest := batch;
    spawned := [];
    waves := 0;
    var collected: seq<MangaImage> := [];
    var i := 0;
    while i < n
      invariant i == stride * waves && i < n + stride
      invariant |spawned| == (if cp <= 0 then 0 else Min(n, waves * cp))
      invariant |spawned| <= |plan| && spawned == plan[..|spawned|]
      invariant rest == batch[..n - |spawned|]
      invariant AllFetched(spawned, fetch) && collected == Fetched(spawned, fetch)
      decreases n - i
    {
      var wave;
      rest, wave := PopWave(rest, cp, i);
      if cp > 0 {
        PassExtendsSchedule(batch, stride, cp, waves, spawned, wave);
      }
      var results := JoinWave(wave, fetch);
      if results.None? {
        FailedWave(plan, spawned, wave, fetch);
        spawned := spawned + wave;
        images := None;
        return;
      }
      FetchedAppend(spawned, wave, fetch);
      spawned := spawned + wave;
      collected := collected + results.value;
      waves := waves + 1;
      i := i + stride;
    }
    PassesWhenDone(n, stride, waves);
    images := Some(collected);
  }

  // ---------------------------------------------------------------------
  // The entry point as written, and the page order it guarantees
  // ---------------------------------------------------------------------

  /** The schedule that takes every URL once, from the back, and numbers
      the k-th pop as page k. */
  function InOrder(batch: seq<Url>): (plan: seq<Task>)
    ensures |plan| == |batch|
  {
    seq(|batch|, k requires 0 <= k < |batch| => Task(batch[|batch| - 1 - k], k))
  }

  /** When the outer step equals the concurrency, the passes pop every URL
      and the page numbers are exactly the pop positions 0..n-1. */
  lemma ScheduleInOrder(batch: seq<Url>, cp: int)
    requires cp >= 1
    ensures Schedule(batch, cp, cp) == InOrder(batch)
  {
    var n := |batch|;
    var a := n + cp - 1;
    assert a == (a / cp) * cp + a % cp;
    assert WaveCount(n, cp) * cp >= n;
    assert PopCount(n, cp, cp) == n;
    forall k: nat | k < n
      ensures SlotPage(k, cp, cp) == k
    {
      assert k == (k / cp) * cp + k % cp;
    }
  }

  /** A concurrency at least the number of URLs empties the stack in the
      first pass, numbered 0..n-1, whatever the outer step; later passes pop
      nothing. */
  lemma ScheduleWideInOrder(batch: seq<Url>, stride: nat, cp: int)
    requires stride > 0 && cp >= |batch|
    ensures Schedule(batch, stride, cp) == InOrder(batch)
  {
    var n := |batch|;
    if n > 0 {
      assert n + stride - 1 == 1 * stride + (n - 1);
      assert WaveCount(n, stride) >= 1;
      MulAtLeast(WaveCount(n, stride), cp);
      assert PopCount(n, stride, cp) == n;
      forall k: nat | k < n
        ensures SlotPage(k, stride, cp) == k
      {
        DivModUnique(k, cp, 0, k);
      }
    }
  }

  /** Downloading an in-order schedule succeeds exactly when every URL of
      the batch can be fetched, and then gives the pages in order. */
  lemma FetchedInOrder(batch: seq<Url>, fetch: Url -> Option<Bytes>)
    ensures AllFetched(InOrder(batch), fetch) <==> forall k :: 0 <= k < |batch| ==> fetch(batch[k]).Some?
    ensures AllFetched(InOrder(batch), fetch) ==> PagesInOrder(batch, Fetched(InOrder(batch), fetch), fetch)
  {
    var n := |batch|;
    var plan := InOrder(batch);
    if forall k :: 0 <= k < n ==> fetch(batch[k]).Some? {
      assert forall k :: 0 <= k < n ==> plan[k].url == batch[n - 1 - k];
    } else {
      var k :| 0 <= k < n && fetch(batch[k]).None?;
      assert plan[n - 1 - k].url == batch[k];
    }
  }

  /** `async_get_image_batch(batch, concurrent_process)`: the loop with the
      hard-coded outer step 5. Whatever the concurrency, there are
      ceil(n / 5) passes; the stack only ever loses URLs from its back; an
      empty batch spawns nothing; and at concurrency 5, the value every
      caller passes, or at any concurrency of at least the number of URLs,
      the stack is drained and page k holds the k-th URL from the back. */
  method AsyncGetImageBatch(batch: seq<Url>, concurrentProcess: int, fetch: Url -> Option<Bytes>)
    returns (rest: seq<Url>, spawned: seq<Task>, waves: nat, images: Option<seq<MangaImage>>)
    ensures |spawned| <= |batch| && rest == batch[..|batch| - |spawned|]
    ensures |batch| == 0 ==> spawned == [] && images == Some([])
    ensures images.Some? <==> AllFetched(Schedule(batch, Stride, concurrentProcess), fetch)
    ensures images.None? ==> !AllFetched(spawned, fetch)
    ensures images.Some? ==>
              && waves == WaveCount(|batch|, Stride)
              && spawned == Schedule(batch, Stride, concurrentProcess)
              && images.value == Fetched(spawned, fetch)
    ensures |spawned| <= |Schedule(batch, Stride, concurrentProcess)|
    ensures spawned == Schedule(batch, Stride, concurrentProcess)[..|spawned|]
    ensures concurrentProcess == 5 || concurrentProcess >= |batch| ==>
              (images.Some? <==> forall k :: 0 <= k < |batch| ==> fetch(batch[k]).Some?)
    ensures (concurrentProcess == 5 || concurrentProcess >= |batch|) && images.Some? ==>
              rest == [] && PagesInOrder(batch, images.value, fetch)
  {
    rest, spawned, waves, images := FetchInWaves(batch, Stride, concurrentProcess, fetch);
    if concurrentProcess == 5 {
      ScheduleInOrder(batch, 5);
      FetchedInOrder(batch, fetch);
    } else if concurrentProcess >= |batch| {
      ScheduleWideInOrder(batch, Stride, concurrentProcess);
      FetchedInOrder(batch, fetch);
    }
  }

  // ---------------------------------------------------------------------
  // The step hard-coded to 5
  // ---------------------------------------------------------------------

  /** Entry k of the schedule, one index at a time. */
  lemma ScheduleAt(batch: seq<Url>, stride: nat, cp: int, k: nat)
    requires stride > 0 && cp > 0 && k < PopCount(|batch|, stride, cp)
    ensures Schedule(batch, stride, cp)[k] == Task(batch[|batch| - 1 - k], SlotPage(k, stride, cp))
  {
  }

  /** With concurrency 2, six URLs get two passes (start 0 and 5) that pop
      only four of them, numbered 0, 1, 5, 6; the first two URLs of the
      batch are never fetched. */
  lemma ConcurrencyTwoSkipsUrls(batch: seq<Url>)
    requires |batch| == 6
    ensures var plan := Schedule(batch, Stride, 2);
      && |plan| == 4
      && plan[0] == Task(batch[5], 0) && plan[1] == Task(batch[4], 1)
      && plan[2] == Task(batch[3], 5) && plan[3] == Task(batch[2], 6)
  {
    var plan := Schedule(batch, Stride, 2);
    assert |plan| == 4 by { PassesWhenDone(6, Stride, 2); }
    assert plan[0] == Task(batch[5], 0) by {
      ScheduleAt(batch, Stride, 2, 0);
      SlotPageInWave(0, 0, Stride, 2);
    }
    assert plan[1] == Task(batch[4], 1) by {
      ScheduleAt(batch, Stride, 2, 1);
      SlotPageInWave(0, 1, Stride, 2);
    }
    assert plan[2] == Task(batch[3], 5) by {
      ScheduleAt(batch, Stride, 2, 2);
      SlotPageInWave(1, 0, Stride, 2);
    }
    assert plan[3] == Task(batch[2], 6) by {
      ScheduleAt(batch, Stride, 2, 3);
      SlotPageInWave(1, 1, Stride, 2);
    }
  }

  /** With concurrency 6, seven URLs get two passes; the first pops six
      URLs numbered 0..5, the second pops the last URL and numbers it 5
      again. */
  lemma ConcurrencySixRepeatsPage(batch: seq<Url>)
    requires |batch| == 7
    ensures var plan := Schedule(batch, Stride, 6);
      && |plan| == 7 && plan[5] == Task(batch[1], 5) && plan[6] == Task(batch[0], 5)
  {
    var plan := Schedule(batch, Stride, 6);
    assert |plan| == 7 by { PassesWhenDone(7, Stride, 2); }
    assert plan[5] == Task(batch[1], 5) by {
      ScheduleAt(batch, Stride, 6, 5);
      SlotPageInWave(0, 5, Stride, 6);
    }
    assert plan[6] == Task(batch[0], 5) by {
      ScheduleAt(batch, Stride, 6, 6);
      SlotPageInWave(1, 0, Stride, 6);
    }
  }

  /** The loop with its outer step equal to the concurrency, as the doc
      comment of `async_get_image_batch` describes: every URL is fetched
      once and page k holds the k-th URL from the back, for any positive
      concurrency. At concurrency 5 it spawns exactly the tasks of the code
      as written. */
  method CorrectedImageBatch(batch: seq<Url>, concurrentProcess: int, fetch: Url -> Option<Bytes>)
    returns (rest: seq<Url>, spawned: seq<Task>, waves: nat, images: Option<seq<MangaImage>>)
    requires concurrentProcess >= 1
    ensures |spawned| <= |batch| && rest == batch[..|batch| - |spawned|]
    ensures images.Some? <==> forall k :: 0 <= k < |batch| ==> fetch(batch[k]).Some?
    ensures images.Some? ==>
              && rest == []
              && waves == WaveCount(|batch|, concurrentProcess)
              && PagesInOrder(batch, images.value, fetch)
    ensures concurrentProcess == 5 ==> spawned == Schedule(batch, Stride, 5)[..|spawned|]
  {
    rest, spawned, waves, images := FetchInWaves(batch, concurrentProcess, concurrentProcess, fetch);
    ScheduleInOrder(batch, concurrentProcess);
    FetchedInOrder(batch, fetch);
  }
}
