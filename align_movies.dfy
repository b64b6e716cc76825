/** The streaming core of movie alignment (`ProtAlignMovies`): one
    reconciliation pass discovers newly processed movies, records them in the
    done list, appends one aligned movie and/or one micrograph per new movie
    to the output sets, computes `finished`, sets the stream state and
    releases the waiting join step. */
module AlignMovies {
  import opened Wrappers
  import opened SeqUtil

  // ---------------------------------------------------------------------
  // Entities

  /** An input movie as seen by the pass; `objId` is its id in the input set.
      Its file name is not part of the model. */
  datatype Movie = Movie(objId: int, micName: string, numberOfFrames: int)

  /** Region of interest stored with an alignment: crop offsets and dimensions. */
  datatype Roi = Roi(offsetX: int, offsetY: int, dimX: int, dimY: int)

  datatype MovieAlignment = MovieAlignment(first: int, last: int,
                                           xshifts: seq<real>, yshifts: seq<real>, roi: Roi)

  /** The movie appended to the output movie set: a copy of the input movie
      carrying its alignment. */
  datatype AlignedMovie = AlignedMovie(movie: Movie, alignment: MovieAlignment)

  /** The micrograph appended to the output micrograph set. */
  datatype Micrograph = Micrograph(objId: int, micName: string)

  /** The protocol parameters the core reads. */
  datatype AlignParams = AlignParams(
    alignFrame0: int, alignFrameN: int,
    sumFrame0: int, sumFrameN: int,
    cropOffsetX: int, cropOffsetY: int,
    cropDimX: int, cropDimY: int,
    doSaveAveMic: bool, doSaveMovie: bool)

  /** Which pair of `<prefix>Frame0` / `<prefix>FrameN` parameters a range uses. */
  datatype RangePrefix = Align | Sum

  datatype StreamState = StreamOpen | StreamClosed

  /** A persisted output set (its sqlite file): the items and the stream state. */
  datatype SetFile<T> = SetFile(items: seq<T>, streamState: StreamState)

  datatype OutputName = OutputMovies | OutputMicrographs

  /** Provenance edges from the input movies to an output set. */
  datatype Relation = TransformRelation(target: OutputName) | SourceRelation(target: OutputName)

  datatype StepStatus = StatusSaved | StatusLaunched | StatusNew | StatusRunning | StatusFailed
                      | StatusFinished | StatusAborted | StatusInteractive | StatusWaiting

  datatype AlignError = CropDimensionsMismatch | AlignFrame0TooLarge | AlignFrameNTooLarge

  // ---------------------------------------------------------------------
  // Pure helpers: frame range, zero shifts, output movie, validation

  /** `_getFrameRange`: 1-based first and last frame of the range, after
      dropping `<prefix>Frame0` frames at the start and `<prefix>FrameN` at the end. */
  function FrameRange(p: AlignParams, n: int, prefix: RangePrefix): (r: (int, int))
    ensures var (frame0, frameN) := if prefix == Align then (p.alignFrame0, p.alignFrameN)
                                    else (p.sumFrame0, p.sumFrameN);
            r.0 - 1 == frame0 && n - r.1 == frameN && r.1 - r.0 + 1 == n - frame0 - frameN
  {
    if prefix == Align then (1 + p.alignFrame0, n - p.alignFrameN)
    else (1 + p.sumFrame0, n - p.sumFrameN)
  }

  /** Python's `[0] * (last - first + 1)`: a negative count gives the empty list. */
  function ZeroShifts(first: int, last: int): (r: seq<real>)
    ensures |r| == if last - first + 1 > 0 then last - first + 1 else 0
    ensures forall k :: 0 <= k < |r| ==> r[k] == 0.0
    decreases last - first
  {
    if last < first then [] else ZeroShifts(first, last - 1) + [0.0]
  }

  /** `_createOutputMovie` (range and shift part): the copy of `movie` with
      its alignment; `shifts` stands for the `_getMovieShifts` hook. */
  function CreateOutputMovie(p: AlignParams, movie: Movie, shifts: (seq<real>, seq<real>)): (r: AlignedMovie)
    ensures r.movie == movie
    ensures (r.alignment.first, r.alignment.last) == FrameRange(p, movie.numberOfFrames, Align)
    ensures r.alignment.roi == Roi(p.cropOffsetX, p.cropOffsetY, p.cropDimX, p.cropDimY)
    ensures p.doSaveMovie ==>
              && r.alignment.xshifts == r.alignment.yshifts
              && |r.alignment.xshifts| == NumAlignedFrames(p, movie.numberOfFrames)
              && forall k :: 0 <= k < |r.alignment.xshifts| ==> r.alignment.xshifts[k] == 0.0
    ensures !p.doSaveMovie ==> (r.alignment.xshifts, r.alignment.yshifts) == shifts
  {
    var (first, last) := FrameRange(p, movie.numberOfFrames, Align);
    var (xshifts, yshifts) := if p.doSaveMovie then (ZeroShifts(first, last), ZeroShifts(first, last))
                              else shifts;
    AlignedMovie(movie, MovieAlignment(first, last, xshifts, yshifts,
                                       Roi(p.cropOffsetX, p.cropOffsetY, p.cropDimX, p.cropDimY)))
  }

  /** Number of frames left for alignment in a movie of `n` frames (never negative). */
  function NumAlignedFrames(p: AlignParams, n: int): nat
  {
    if n - p.alignFrame0 - p.alignFrameN > 0 then n - p.alignFrame0 - p.alignFrameN else 0
  }

  predicate CropMismatch(p: AlignParams)
  {
    (p.cropDimX > 0 && p.cropDimY <= 0) || (p.cropDimY > 0 && p.cropDimX <= 0)
  }

  function ErrorRank(e: AlignError): nat
  {
    match e
    case CropDimensionsMismatch => 0
    case AlignFrame0TooLarge => 1
    case AlignFrameNTooLarge => 2
  }

  /** `_validate`: one error per violated rule, in the order the rules are checked. */
  function Validate(p: AlignParams): (errors: seq<AlignError>)
    ensures CropDimensionsMismatch in errors <==> CropMismatch(p)
    ensures AlignFrame0TooLarge in errors <==> p.alignFrame0 > p.sumFrame0
    ensures AlignFrameNTooLarge in errors <==> p.alignFrameN > p.sumFrameN
    ensures forall i, j :: 0 <= i < j < |errors| ==> ErrorRank(errors[i]) < ErrorRank(errors[j])
  {
    (if CropMismatch(p) then [CropDimensionsMismatch] else [])
    + (if p.alignFrame0 > p.sumFrame0 then [AlignFrame0TooLarge] else [])
    + (if p.alignFrameN > p.sumFrameN then [AlignFrameNTooLarge] else [])
  }

  /** Parameters that pass validation keep the summed frames inside the aligned frames. */
  lemma SumRangeInsideAlignRange(p: AlignParams, n: int)
    requires Validate(p) == []
    ensures FrameRange(p, n, Align).0 <= FrameRange(p, n, Sum).0
    ensures FrameRange(p, n, Sum).1 <= FrameRange(p, n, Align).1
  {
    assert AlignFrame0TooLarge !in Validate(p);
    assert AlignFrameNTooLarge !in Validate(p);
  }

  // ---------------------------------------------------------------------
  // Specification of one reconciliation pass

  function Ids(movies: seq<Movie>): (ids: seq<int>)
    ensures |ids| == |movies|
    ensures forall k :: 0 <= k < |movies| ==> ids[k] == movies[k].objId
  {
    seq(|movies|, k requires 0 <= k < |movies| => movies[k].objId)
  }

  /** The list comprehension of `_checkNewOutput`: the movies, in input order,
      not yet in the done list and reported done by `isMovieDone`. */
  function NewDone(movies: seq<Movie>, doneList: seq<int>, isMovieDone: Movie -> bool): seq<Movie>
  {
    if movies == [] then []
    else
      var rest := NewDone(movies[1..], doneList, isMovieDone);
      if movies[0].objId !in doneList && isMovieDone(movies[0]) then [movies[0]] + rest else rest
  }

  /** The items already in an output set: those of its file, or none when
      the file does not exist yet. */
  function Items<T>(file: Option<SetFile<T>>): seq<T>
  {
    if file.Some? then file.value.items else []
  }

  function AlignAll(p: AlignParams, movies: seq<Movie>, movieShifts: Movie -> (seq<real>, seq<real>)): (r: seq<AlignedMovie>)
    ensures |r| == |movies|
  {
    seq(|movies|, k requires 0 <= k < |movies| => CreateOutputMovie(p, movies[k], movieShifts(movies[k])))
  }

  function MicrographOf(movie: Movie): Micrograph
  {
    Micrograph(movie.objId, movie.micName)
  }

  function MicrographsOf(movies: seq<Movie>): (r: seq<Micrograph>)
    ensures |r| == |movies|
  {
    seq(|movies|, k requires 0 <= k < |movies| => MicrographOf(movies[k]))
  }

  function MovieIds(items: seq<AlignedMovie>): seq<int>
  {
    seq(|items|, k requires 0 <= k < |items| => items[k].movie.objId)
  }

  function MicIds(items: seq<Micrograph>): seq<int>
  {
    seq(|items|, k requires 0 <= k < |items| => items[k].objId)
  }

  /** What a pass reads besides the protocol state: the parameters, the
      `_doGenerateOutputMovies` hook, the current input list, whether the
      input stream is closed, and the `_isMovieDone` / `_getMovieShifts` hooks. */
  datatype PassInput = PassInput(
    params: AlignParams, generateOutputMovies: bool,
    movies: seq<Movie>, streamClosed: bool,
    isMovieDone: Movie -> bool, movieShifts: Movie -> (seq<real>, seq<real>))

  /** The protocol state a pass reads and writes. */
  datatype PassState = PassState(
    finished: bool,
    doneList: seq<int>,
    moviesFile: Option<SetFile<AlignedMovie>>,
    micsFile: Option<SetFile<Micrograph>>,
    relations: seq<Relation>,
    joinStep: Option<StepStatus>)

  /** The state after one `_checkNewOutput` pass. */
  function Pass(inp: PassInput, s: PassState): PassState
  {
    if s.finished then s
    else
      var newDone := NewDone(inp.movies, s.doneList, inp.isMovieDone);
      var firstTime := |s.doneList| == 0;
      var finished := inp.streamClosed && |s.doneList| + |newDone| == |inp.movies|;
      var mode := if finished then StreamClosed else StreamOpen;
      PassState(
        finished,
        s.doneList + Ids(newDone),
        if inp.generateOutputMovies
        then Some(SetFile(Items(s.moviesFile) + AlignAll(inp.params, newDone, inp.movieShifts), mode))
        else s.moviesFile,
        if inp.params.doSaveAveMic
        then Some(SetFile(Items(s.micsFile) + MicrographsOf(newDone), mode))
        else s.micsFile,
        s.relations
        + (if inp.generateOutputMovies && firstTime then [TransformRelation(OutputMovies)] else [])
        + (if inp.params.doSaveAveMic && firstTime then [SourceRelation(OutputMicrographs)] else []),
        if finished && s.joinStep == Some(StatusWaiting) then Some(StatusNew) else s.joinStep)
  }

  /** Several passes in a row, each with its own input. */
  function Run(inputs: seq<PassInput>, s: PassState): PassState
    decreases |inputs|
  {
    if inputs == [] then s else Run(inputs[1..], Pass(inputs[0], s))
  }

  // ---------------------------------------------------------------------
  // Properties of a pass

  /** The new items are exactly the input movies not in the done list and
      reported done, kept in input order. */
  lemma {:induction false} NewDoneMembers(movies: seq<Movie>, doneList: seq<int>, isMovieDone: Movie -> bool)
    ensures forall m :: m in NewDone(movies, doneList, isMovieDone) <==>
                        m in movies && m.objId !in doneList && isMovieDone(m)
    ensures |NewDone(movies, doneList, isMovieDone)| <= |movies|
  {
    if movies != [] {
      NewDoneMembers(movies[1..], doneList, isMovieDone);
      assert movies == [movies[0]] + movies[1..];
    }
  }

  /** Input movies with distinct ids give new items with distinct ids. */
  lemma {:induction false} NewDoneDistinct(movies: seq<Movie>, doneList: seq<int>, isMovieDone: Movie -> bool)
    requires NoDuplicates(Ids(movies))
    ensures NoDuplicates(Ids(NewDone(movies, doneList, isMovieDone)))
  {
    if movies != [] {
      var rest := NewDone(movies[1..], doneList, isMovieDone);
      assert Ids(movies[1..]) == Ids(movies)[1..];
      NewDoneDistinct(movies[1..], doneList, isMovieDone);
      NewDoneMembers(movies[1..], doneList, isMovieDone);
      if movies[0].objId !in doneList && isMovieDone(movies[0]) {
        forall j | 0 < j < |[movies[0]] + rest|
          ensures movies[0].objId != ([movies[0]] + rest)[j].objId
        {
          var m := rest[j - 1];
          assert m in movies[1..];
          var k :| 0 <= k < |movies[1..]| && movies[1..][k] == m;
          assert Ids(movies)[k + 1] == m.objId;
        }
      }
    }
  }

  /** The invariant every pass keeps: the done list has no duplicates and
      each enabled output set holds exactly one item per done id, in done-list order. */
  predicate Consistent(params: AlignParams, generateOutputMovies: bool, s: PassState)
  {
    && NoDuplicates(s.doneList)
    && (generateOutputMovies ==> MovieIds(Items(s.moviesFile)) == s.doneList)
    && (params.doSaveAveMic ==> MicIds(Items(s.micsFile)) == s.doneList)
    && (s.finished && generateOutputMovies ==> s.moviesFile.Some? ==> s.moviesFile.value.streamState == StreamClosed)
    && (s.finished && params.doSaveAveMic ==> s.micsFile.Some? ==> s.micsFile.value.streamState == StreamClosed)
  }

  /** A pass on input movies with distinct ids keeps `Consistent`; in
      particular no movie is appended in two passes. */
  lemma PassKeepsConsistent(inp: PassInput, s: PassState)
    requires NoDuplicates(Ids(inp.movies))
    requires Consistent(inp.params, inp.generateOutputMovies, s)
    ensures Consistent(inp.params, inp.generateOutputMovies, Pass(inp, s))
  {
    if !s.finished {
      var newDone := NewDone(inp.movies, s.doneList, inp.isMovieDone);
      var t := Pass(inp, s);
      PassDoneList(inp, s);
      if inp.generateOutputMovies {
        var added := AlignAll(inp.params, newDone, inp.movieShifts);
        assert MovieIds(Items(s.moviesFile) + added) == MovieIds(Items(s.moviesFile)) + Ids(newDone);
      }
      if inp.params.doSaveAveMic {
        assert MicIds(Items(s.micsFile) + MicrographsOf(newDone)) == MicIds(Items(s.micsFile)) + Ids(newDone);
      }
    }
  }

  /** Any number of passes from a consistent state stay consistent: every
      output set lists each movie id at most once. */
  lemma {:induction false} RunAtMostOnce(inputs: seq<PassInput>, params: AlignParams, generateOutputMovies: bool, s: PassState)
    requires forall k :: 0 <= k < |inputs| ==>
               inputs[k].params == params && inputs[k].generateOutputMovies == generateOutputMovies
               && NoDuplicates(Ids(inputs[k].movies))
    requires Consistent(params, generateOutputMovies, s)
    ensures Consistent(params, generateOutputMovies, Run(inputs, s))
    ensures generateOutputMovies ==> NoDuplicates(MovieIds(Items(Run(inputs, s).moviesFile)))
    ensures params.doSaveAveMic ==> NoDuplicates(MicIds(Items(Run(inputs, s).micsFile)))
    decreases |inputs|
  {
    if inputs != [] {
      PassKeepsConsistent(inputs[0], s);
      RunAtMostOnce(inputs[1..], params, generateOutputMovies, Pass(inputs[0], s));
    }
  }

  /** Once finished, a pass changes nothing: no done-list write, no append,
      no relation, no join-step change. */
  lemma FinishedIsFinal(inp: PassInput, s: PassState)
    requires s.finished
    ensures Pass(inp, s) == s
  {
  }

  /** A pass only grows the done list and the output sets, by exactly the
      new items, in their order; each micrograph carries its movie's id. */
  lemma PassAppendsNewDone(inp: PassInput, s: PassState)
    requires !s.finished
    ensures var newDone := NewDone(inp.movies, s.doneList, inp.isMovieDone);
            var t := Pass(inp, s);
            && t.doneList == s.doneList + Ids(newDone)
            && (newDone == [] ==> t.doneList == s.doneList)
            && (inp.generateOutputMovies ==>
                  && Items(s.moviesFile) <= Items(t.moviesFile)
                  && |Items(t.moviesFile)| == |Items(s.moviesFile)| + |newDone|
                  && MovieIds(Items(t.moviesFile)[|Items(s.moviesFile)|..]) == Ids(newDone))
            && (inp.params.doSaveAveMic ==>
                  && Items(s.micsFile) <= Items(t.micsFile)
                  && |Items(t.micsFile)| == |Items(s.micsFile)| + |newDone|
                  && MicIds(Items(t.micsFile)[|Items(s.micsFile)|..]) == Ids(newDone))
  {
    var newDone := NewDone(inp.movies, s.doneList, inp.isMovieDone);
    var t := Pass(inp, s);
    if inp.generateOutputMovies {
      var old_ := Items(s.moviesFile);
      assert Items(t.moviesFile)[|old_|..] == AlignAll(inp.params, newDone, inp.movieShifts);
    }
    if inp.params.doSaveAveMic {
      var old_ := Items(s.micsFile);
      assert Items(t.micsFile)[|old_|..] == MicrographsOf(newDone);
    }
  }

  /** `finished` is "stream closed and every done count matches the input
      count"; the stream state of every written output set is CLOSED exactly
      when `finished` holds. */
  lemma PassFinishedAndStreamState(inp: PassInput, s: PassState)
    requires !s.finished
    ensures var t := Pass(inp, s);
            && (t.finished <==> inp.streamClosed && |t.doneList| == |inp.movies|)
            && (inp.generateOutputMovies ==>
                  t.moviesFile.Some? && (t.moviesFile.value.streamState == StreamClosed <==> t.finished))
            && (inp.params.doSaveAveMic ==>
                  t.micsFile.Some? && (t.micsFile.value.streamState == StreamClosed <==> t.finished))
  {
  }

  /** Relations are recorded only on a pass that starts with an empty done
      list, one per enabled output set. */
  lemma PassRelations(inp: PassInput, s: PassState)
    ensures var t := Pass(inp, s);
            && s.relations <= t.relations
            && (s.finished || s.doneList != [] ==> t.relations == s.relations)
            && (!s.finished && s.doneList == [] ==>
                  t.relations == s.relations
                                 + (if inp.generateOutputMovies then [TransformRelation(OutputMovies)] else [])
                                 + (if inp.params.doSaveAveMic then [SourceRelation(OutputMicrographs)] else []))
  {
  }

  /** The join step is a one-way gate: it moves only from WAITING to NEW,
      and only on a pass that finishes. */
  lemma JoinStepGate(inp: PassInput, s: PassState)
    ensures var t := Pass(inp, s);
            && (t.joinStep != s.joinStep <==>
                  !s.finished && t.finished && s.joinStep == Some(StatusWaiting))
            && (t.joinStep != s.joinStep ==> t.joinStep == Some(StatusNew))
  {
  }

  /** When every done movie is already in the done list, there are no new items. */
  lemma {:induction false} NothingNew(movies: seq<Movie>, doneList: seq<int>, isMovieDone: Movie -> bool)
    requires forall m :: m in movies && isMovieDone(m) ==> m.objId in doneList
    ensures NewDone(movies, doneList, isMovieDone) == []
  {
    if movies != [] {
      assert movies[0] in movies;
      NothingNew(movies[1..], doneList, isMovieDone);
    }
  }

  /** Running the same pass twice in a row adds nothing the second time:
      the done list, the output sets, `finished` and the join step stay as
      they were. Relations are added again only when the first pass left the
      done list empty (the code keys them on the done list, not on appends). */
  lemma {:induction false} PassIdempotent(inp: PassInput, s: PassState)
    ensures var t := Pass(inp, s);
            var u := Pass(inp, t);
            && u.finished == t.finished
            && u.doneList == t.doneList
            && u.moviesFile == t.moviesFile
            && u.micsFile == t.micsFile
            && u.joinStep == t.joinStep
            && (t.finished || t.doneList != [] ==> u.relations == t.relations)
  {
    var t := Pass(inp, s);
    if !t.finished {
      NewDoneMembers(inp.movies, s.doneList, inp.isMovieDone);
      NewDoneMembers(inp.movies, t.doneList, inp.isMovieDone);
      var newDone := NewDone(inp.movies, s.doneList, inp.isMovieDone);
      forall m | m in inp.movies && inp.isMovieDone(m) ensures m.objId in t.doneList {
        if m.objId !in s.doneList {
          assert m in newDone;
          var k :| 0 <= k < |newDone| && newDone[k] == m;
          assert t.doneList[|s.doneList| + k] == m.objId;
        }
      }
      NothingNew(inp.movies, t.doneList, inp.isMovieDone);
      var again := NewDone(inp.movies, t.doneList, inp.isMovieDone);
      assert |t.doneList| == |s.doneList| + |NewDone(inp.movies, s.doneList, inp.isMovieDone)|;
      assert t.doneList + Ids(again) == t.doneList;
      assert Items(t.moviesFile) + AlignAll(inp.params, again, inp.movieShifts) == Items(t.moviesFile);
      assert Items(t.micsFile) + MicrographsOf(again) == Items(t.micsFile);
    }
  }

  /** The done list extended with the ids of the new items keeps no
      duplicates, and each id it gains is the id of an input movie. */
  lemma ExtendDoneList(movies: seq<Movie>, doneList: seq<int>, isMovieDone: Movie -> bool)
    requires NoDuplicates(doneList)
    requires NoDuplicates(Ids(movies))
    ensures NoDuplicates(doneList + Ids(NewDone(movies, doneList, isMovieDone)))
    ensures forall id :: id in doneList + Ids(NewDone(movies, doneList, isMovieDone)) ==>
                         id in doneList || id in Ids(movies)
  {
    var newDone := NewDone(movies, doneList, isMovieDone);
    var extended := doneList + Ids(newDone);
    NewDoneMembers(movies, doneList, isMovieDone);
    NewDoneDistinct(movies, doneList, isMovieDone);
    forall i, j | 0 <= i < j < |extended| ensures extended[i] != extended[j] {
      if j >= |doneList| && i < |doneList| {
        assert newDone[j - |doneList|] in newDone;
      }
    }
    forall id | id in extended && id !in doneList ensures id in Ids(movies) {
      var k :| 0 <= k < |extended| && extended[k] == id;
      var m := newDone[k - |doneList|];
      assert m in newDone;
      var j :| 0 <= j < |movies| && movies[j] == m;
      assert Ids(movies)[j] == id;
    }
  }

  /** After a pass the done list is the old one plus the new ids, still
      without duplicates, and every id it gained comes from the input list. */
  lemma PassDoneList(inp: PassInput, s: PassState)
    requires !s.finished
    requires NoDuplicates(s.doneList)
    requires NoDuplicates(Ids(inp.movies))
    ensures NoDuplicates(Pass(inp, s).doneList)
    ensures forall id :: id in Pass(inp, s).doneList ==> id in s.doneList || id in Ids(inp.movies)
  {
    assert Pass(inp, s).doneList == s.doneList + Ids(NewDone(inp.movies, s.doneList, inp.isMovieDone));
    ExtendDoneList(inp.movies, s.doneList, inp.isMovieDone);
  }

  /** When the done ids all come from the input list, `finished` after a
      pass holds exactly when the stream is closed and every input movie is
      in the done list: the count comparison of the code means "all done". */
  lemma FinishedMeansAllProcessed(inp: PassInput, s: PassState)
    requires !s.finished
    requires NoDuplicates(s.doneList)
    requires NoDuplicates(Ids(inp.movies))
    requires forall id :: id in s.doneList ==> id in Ids(inp.movies)
    ensures var t := Pass(inp, s);
            t.finished <==> inp.streamClosed && forall m :: m in inp.movies ==> m.objId in t.doneList
  {
    var t := Pass(inp, s);
    PassDoneList(inp, s);
    var done := set id | id in t.doneList;
    var all := set id | id in Ids(inp.movies);
    DistinctCardinality(t.doneList);
    DistinctCardinality(Ids(inp.movies));
    SubsetSameSize(done, all);
    if forall m :: m in inp.movies ==> m.objId in t.doneList {
      forall id | id in all ensures id in done {
        var k :| 0 <= k < |inp.movies| && Ids(inp.movies)[k] == id;
        assert inp.movies[k] in inp.movies;
      }
    } else {
      var m :| m in inp.movies && m.objId !in t.doneList;
      var k :| 0 <= k < |inp.movies| && inp.movies[k] == m;
      assert Ids(inp.movies)[k] == m.objId;
      assert m.objId in all - done;
    }
  }

  // ---------------------------------------------------------------------
  // The protocol object and its pass

  /** An output set in memory (`SetOfMovies`, `SetOfMicrographs`): items are
      appended in place; the stream state is set before it is written back. */
  class OutputSet<T> {
    var items: seq<T>
    var streamState: StreamState

    /** A set with no file yet. */
    constructor Create()
      ensures items == [] && streamState == StreamOpen
    {
      items := [];
      streamState := StreamOpen;
    }

    /** A set read back from its file (`loadAllProperties`, `enableAppend`). */
    constructor Load(file: SetFile<T>)
      ensures items == file.items && streamState == file.streamState
    {
      items := file.items;
      streamState := file.streamState;
    }

    method Append(item: T)
      modifies this
      ensures items == old(items) + [item] && streamState == old(streamState)
    {
      items := items + [item];
    }

    method SetStreamState(state: StreamState)
      modifies this
      ensures streamState == state && items == old(items)
    {
      streamState := state;
    }

    function File(): SetFile<T>
      reads this
    {
      SetFile(items, streamState)
    }
  }

  class ProtAlignMovies {
    const params: AlignParams
    /** The `_doGenerateOutputMovies` hook. */
    const generateOutputMovies: bool
    /** The input movies and whether their stream is closed, refreshed between passes. */
    var listOfMovies: seq<Movie>
    var streamClosed: bool
    var finished: bool
    /** The done-list file. */
    var doneList: seq<int>
    /** The output set files. */
    var moviesFile: Option<SetFile<AlignedMovie>>
    var micsFile: Option<SetFile<Micrograph>>
    /** The relations this run has defined, in order. */
    var relations: seq<Relation>
    /** Status of the first join step, if the protocol has one. */
    var joinStep: Option<StepStatus>

    /** A protocol (re)started on what its files hold; `finished` starts unset.
        This stands for the framework's restart and only sets up successive
        passes; the restart itself is not modelled. */
    constructor (params: AlignParams, generateOutputMovies: bool, doneList: seq<int>,
                 moviesFile: Option<SetFile<AlignedMovie>>, micsFile: Option<SetFile<Micrograph>>,
                 joinStep: Option<StepStatus>)
      ensures this.params == params && this.generateOutputMovies == generateOutputMovies
      ensures listOfMovies == [] && !streamClosed
      ensures State() == PassState(false, doneList, moviesFile, micsFile, [], joinStep)
    {
      this.params := params;
      this.generateOutputMovies := generateOutputMovies;
      listOfMovies := [];
      streamClosed := false;
      finished := false;
      this.doneList := doneList;
      this.moviesFile := moviesFile;
      this.micsFile := micsFile;
      relations := [];
      this.joinStep := joinStep;
    }

    function State(): PassState
      reads this
    {
      PassState(finished, doneList, moviesFile, micsFile, relations, joinStep)
    }

    function Input(isMovieDone: Movie -> bool, movieShifts: Movie -> (seq<real>, seq<real>)): PassInput
      reads this
    {
      PassInput(params, generateOutputMovies, listOfMovies, streamClosed, isMovieDone, movieShifts)
    }

    /** New input arrives between passes. This stands for the framework's
        refresh of the input list and only drives successive passes; the
        refresh itself is not modelled. */
    method RefreshInput(movies: seq<Movie>, closed: bool)
      modifies this`listOfMovies, this`streamClosed
      ensures listOfMovies == movies && streamClosed == closed
    {
      listOfMovies := movies;
      streamClosed := closed;
    }

    /** `_writeDoneList`: appends the ids of the given movies to the done list. */
    method WriteDoneList(movies: seq<Movie>)
      modifies this`doneList
      ensures doneList == old(doneList) + Ids(movies)
    {
      doneList := doneList + Ids(movies);
    }

    /** `_loadOutputSet`: resume the set from its file, or create it OPEN. */
    method LoadOutputSet<T>(file: Option<SetFile<T>>) returns (outputSet: OutputSet<T>)
      ensures fresh(outputSet)
      ensures file.Some? ==> outputSet.File() == file.value
      ensures file.None? ==> outputSet.items == [] && outputSet.streamState == StreamOpen
    {
      if file.Some? {
        outputSet := new OutputSet.Load(file.value);
      } else {
        outputSet := new OutputSet.Create();
        outputSet.SetStreamState(StreamOpen);
      }
    }

    /** The first loop of `_checkNewOutput`: one aligned movie per new movie, in order. */
    method AppendAlignedMovies(movieSet: OutputSet<AlignedMovie>, newDone: seq<Movie>,
                               movieShifts: Movie -> (seq<real>, seq<real>))
      modifies movieSet
      ensures movieSet.items == old(movieSet.items) + AlignAll(params, newDone, movieShifts)
      ensures movieSet.streamState == old(movieSet.streamState)
    {
      var i := 0;
      while i < |newDone|
        invariant 0 <= i <= |newDone|
        invariant movieSet.items == old(movieSet.items) + AlignAll(params, newDone[..i], movieShifts)
        invariant movieSet.streamState == old(movieSet.streamState)
      {
        var newMovie := CreateOutputMovie(params, newDone[i], movieShifts(newDone[i]));
        movieSet.Append(newMovie);
        i := i + 1;
      }
      assert newDone[..i] == newDone;
    }

    /** The second loop of `_checkNewOutput`: one micrograph per new movie,
        carrying the movie's id and micrograph name, in order. */
    method AppendMicrographs(micSet: OutputSet<Micrograph>, newDone: seq<Movie>)
      modifies micSet
      ensures micSet.items == old(micSet.items) + MicrographsOf(newDone)
      ensures micSet.streamState == old(micSet.streamState)
    {
      var i := 0;
      while i < |newDone|
        invariant 0 <= i <= |newDone|
        invariant micSet.items == old(micSet.items) + MicrographsOf(newDone[..i])
        invariant micSet.streamState == old(micSet.streamState)
      {
        var mic := Micrograph(newDone[i].objId, newDone[i].micName);
        micSet.Append(mic);
        i := i + 1;
      }
      assert newDone[..i] == newDone;
    }

    /** The output-movies block of `_checkNewOutput`: resume or create the set,
        append the new aligned movies, set the stream state, write it back, and
        define the transform relation on a first pass. */
    method UpdateMoviesOutput(newDone: seq<Movie>, streamMode: StreamState, firstTime: bool,
                              movieShifts: Movie -> (seq<real>, seq<real>))
      modifies this`moviesFile, this`relations
      ensures moviesFile == Some(SetFile(Items(old(moviesFile)) + AlignAll(params, newDone, movieShifts), streamMode))
      ensures relations == old(relations) + if firstTime then [TransformRelation(OutputMovies)] else []
    {
      var movieSet := LoadOutputSet(moviesFile);
      AppendAlignedMovies(movieSet, newDone, movieShifts);
      movieSet.SetStreamState(streamMode);
      moviesFile := Some(movieSet.File());
      if firstTime {
        relations := relations + [TransformRelation(OutputMovies)];
      }
    }

    /** The micrographs block of `_checkNewOutput`, with the source relation. */
    method UpdateMicrographsOutput(newDone: seq<Movie>, streamMode: StreamState, firstTime: bool)
      modifies this`micsFile, this`relations
      ensures micsFile == Some(SetFile(Items(old(micsFile)) + MicrographsOf(newDone), streamMode))
      ensures relations == old(relations) + if firstTime then [SourceRelation(OutputMicrographs)] else []
    {
      var micSet := LoadOutputSet(micsFile);
      AppendMicrographs(micSet, newDone);
      micSet.SetStreamState(streamMode);
      micsFile := Some(micSet.File());
      if firstTime {
        relations := relations + [SourceRelation(OutputMicrographs)];
      }
    }

    /** `_checkNewOutput`: one reconciliation pass. */
    method CheckNewOutput(isMovieDone: Movie -> bool, movieShifts: Movie -> (seq<real>, seq<real>))
      modifies this
      ensures listOfMovies == old(listOfMovies) && streamClosed == old(streamClosed)
      ensures old(finished) ==> State() == old(State())
      ensures State() == Pass(old(Input(isMovieDone, movieShifts)), old(State()))
    {
      if finished {
        return;
      }
      ghost var t := Pass(Input(isMovieDone, movieShifts), State());
      var done := doneList;
      var newDone := NewDone(listOfMovies, done, isMovieDone);
      if newDone != [] {
        WriteDoneList(newDone);
      }
      assert doneList == t.doneList;
      var firstTime := |done| == 0;
      var allDone := |done| + |newDone|;
      finished := streamClosed && allDone == |listOfMovies|;
      var streamMode := if finished then StreamClosed else StreamOpen;
      assert finished == t.finished;

      if generateOutputMovies {
        UpdateMoviesOutput(newDone, streamMode, firstTime, movieShifts);
      }
      assert moviesFile == t.moviesFile;
      if params.doSaveAveMic {
        UpdateMicrographsOutput(newDone, streamMode, firstTime);
      }
      assert micsFile == t.micsFile;
      assert relations == t.relations;

      if finished && joinStep == Some(StatusWaiting) {
        joinStep := Some(StatusNew);
      }
    }
  }
}
