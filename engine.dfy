/**
 * The sort visualiser's engine: the sequence of numbers it owns, the display
 * metadata derived from it, the in-place bubble sort that the frame loop runs,
 * and the integer geometry of the columns it draws. Window, renderer and event
 * polling are SDL calls; the one thing the engine takes from them, a quit
 * request, is an oracle that may clear `running`.
 */
module SortVis {
  import opened Sorting
  import opened Sequences
  import opened Geometry

  /** The setup failures the engine reports by throwing. */
  datatype EngineError =
    | EmptyFile    // "Numbers file is empty."
    | LengthError  // std::vector refuses a negative size

  datatype Result<T> = Success(value: T) | Failure(error: EngineError)

  datatype Outcome = Ok | Fail(error: EngineError)

  class Engine {
    /** windowSize.X and windowSize.Y. */
    const windowX: nat
    const windowY: nat

    var numbers: seq<int>
    var columnWidth: int
    var maxValue: int
    var running: bool
    var sorted: bool

    /** The `sorted` flag is only ever true of a non-decreasing sequence. */
    ghost predicate Valid()
      reads this
    {
      sorted ==> IsSorted(numbers)
    }

    /** The display metadata describes the current sequence. */
    ghost predicate MetadataCurrent()
      reads this
    {
      |numbers| > 0 && IsMaximum(maxValue, numbers) && columnWidth == windowX / |numbers|
    }

    /** The member initialisers: no numbers, zero metadata, running and not yet sorted. */
    constructor Init(windowX: nat, windowY: nat)
      ensures this.windowX == windowX && this.windowY == windowY
      ensures numbers == [] && columnWidth == 0 && maxValue == 0
      ensures running && !sorted && Valid()
    {
      this.windowX := windowX;
      this.windowY := windowY;
      numbers := [];
      columnWidth := 0;
      maxValue := 0;
      running := true;
      sorted := false;
    }

    /**
     * The engine built from a count: a shuffled `0..maxNumber-1`, then its
     * metadata. A negative count fails in std::vector before anything else.
     */
    static method FromCount(windowX: nat, windowY: nat, maxNumber: int, draw: nat -> nat)
      returns (r: Result<Engine>)
      requires maxNumber != 0
      ensures r.Failure? <==> maxNumber < 0
      ensures r.Failure? ==> r.error == LengthError
      ensures r.Success? ==> fresh(r.value)
      ensures r.Success? ==> r.value.windowX == windowX && r.value.windowY == windowY
      ensures r.Success? ==> IsPermutationOfRange(r.value.numbers, maxNumber)
      ensures r.Success? ==> r.value.maxValue == maxNumber - 1
      ensures r.Success? ==> r.value.MetadataCurrent() && r.value.Valid()
      ensures r.Success? ==> r.value.running && !r.value.sorted
    {
      if maxNumber < 0 {
        return Failure(LengthError);
      }
      var e := new Engine.Init(windowX, windowY);
      var generated := GenerateRandom(maxNumber, draw);
      e.numbers := generated;
      e.CalculateNumbers();
      PermutationOfRangeMaximum(e.numbers, maxNumber);
      assert e.maxValue == maxNumber - 1 by {
        assert e.maxValue in e.numbers && maxNumber - 1 in e.numbers;
      }
      return Success(e);
    }

    /**
     * The engine built from a numbers file, given as its lines already
     * parsed: the values in file order, then their metadata. A file with no
     * lines fails.
     */
    static method FromFile(windowX: nat, windowY: nat, lines: seq<int>) returns (r: Result<Engine>)
      ensures r.Failure? <==> lines == []
      ensures r.Failure? ==> r.error == EmptyFile
      ensures r.Success? ==> fresh(r.value)
      ensures r.Success? ==> r.value.windowX == windowX && r.value.windowY == windowY
      ensures r.Success? ==> r.value.numbers == lines
      ensures r.Success? ==> r.value.MetadataCurrent() && r.value.Valid()
      ensures r.Success? ==> r.value.running && !r.value.sorted
    {
      var e := new Engine.Init(windowX, windowY);
      var loaded := e.LoadFile(lines);
      if loaded.Fail? {
        return Failure(loaded.error);
      }
      e.CalculateNumbers();
      return Success(e);
    }

    /**
     * Fills `0..maxNumber-1` in order, then shuffles it. The generator's
     * draws are the parameter `draw`; only "some permutation" is modelled.
     */
    static method GenerateRandom(maxNumber: nat, draw: nat -> nat) returns (num: seq<int>)
      ensures |num| == maxNumber
      ensures IsPermutationOfRange(num, maxNumber)
    {
      var a := new int[maxNumber];
      var k := 0;
      while k < maxNumber
        invariant 0 <= k <= maxNumber
        invariant forall p :: 0 <= p < k ==> a[p] == p
      {
        a[k] := k;
        k := k + 1;
      }
      assert a[..] == Iota(maxNumber);
      var i := maxNumber;
      while i > 1
        invariant 0 <= i <= maxNumber
        invariant multiset(a[..]) == multiset(Iota(maxNumber))
      {
        var j := draw(i) % i;
        ghost var prev := a[..];
        a[i - 1], a[j] := a[j], a[i - 1];
        assert a[..] == prev[i - 1 := prev[j]][j := prev[i - 1]];
        SwapPermutes(prev, i - 1, j);
        i := i - 1;
      }
      num := a[..];
    }

    /** Appends the file's values to `numbers` in order; fails if `numbers` is still empty. */
    method LoadFile(lines: seq<int>) returns (r: Outcome)
      modifies this`numbers
      ensures numbers == old(numbers) + lines
      ensures r.Fail? <==> numbers == []
      ensures r.Fail? ==> r.error == EmptyFile
    {
      var k := 0;
      while k < |lines|
        invariant 0 <= k <= |lines|
        invariant numbers == old(numbers) + lines[..k]
      {
        numbers := numbers + [lines[k]];
        k := k + 1;
      }
      assert lines[..k] == lines;
      if numbers == [] {
        return Fail(EmptyFile);
      }
      return Ok;
    }

    /** Column width is the window width shared out among the numbers; maxValue is their maximum. */
    method CalculateNumbers()
      requires |numbers| > 0
      modifies this`columnWidth, this`maxValue
      ensures columnWidth == windowX / |numbers|
      ensures IsMaximum(maxValue, numbers)
      ensures MetadataCurrent()
    {
      columnWidth := windowX / |numbers|;
      var top := MaxElement(numbers);
      maxValue := numbers[top];
    }

    /** Polls the event queue; a quit event clears `running`, and nothing sets it again. */
    method HandleEvents()
      modifies this`running
      ensures running ==> old(running)
    {
      var quit: bool :| true;
      if quit {
        running := false;
      }
    }

    /**
     * One pass of the inner loop, comparing positions `j` and `j + 1` for
     * `j` in `[0, bound)`, with a poll for a quit request before each
     * comparison. Reports `true` as soon as a poll leaves `running` false, with
     * the comparisons made so far kept; otherwise `numbers` is Pass of what it was.
     */
    method BubblePass(bound: nat) returns (quit: bool)
      requires bound < |numbers|
      modifies this`numbers, this`running
      ensures quit <==> !running
      ensures running ==> old(running)
      ensures |numbers| == |old(numbers)| && multiset(numbers) == multiset(old(numbers))
      ensures !quit ==> numbers == Pass(old(numbers), 0, bound)
      ensures quit ==> exists j :: 0 <= j <= bound && numbers == Pass(old(numbers), 0, j)
      ensures bound > 0 && !quit ==> running
      ensures bound == 0 ==> running == old(running)
    {
      var j := 0;
      while j < bound
        invariant 0 <= j <= bound
        invariant |numbers| == |old(numbers)| && multiset(numbers) == multiset(old(numbers))
        invariant numbers == Pass(old(numbers), 0, j)
        invariant running ==> old(running)
        invariant j == 0 ==> running == old(running)
        invariant j > 0 ==> running
      {
        HandleEvents();
        if !running {
          return true;
        }
        ghost var before := numbers;
        if numbers[j] > numbers[j + 1] {
          SwapPermutes(numbers, j, j + 1);
          numbers := numbers[j := numbers[j + 1]][j + 1 := numbers[j]];
        }
        assert numbers == CompareSwap(before, j);
        PassSnoc(old(numbers), 0, j);
        j := j + 1;
      }
      quit := !running;
    }

    /**
     * Bubble sort, checking for a quit request before every comparison.
     * Run to the end it leaves `numbers` as BubbleSorted of what it was and
     * sets `sorted`; stopped by a quit it returns at once, `sorted` untouched.
     * Either way `numbers` is a permutation of what it was.
     */
    method BubbleSort()
      requires !sorted
      modifies this`numbers, this`sorted, this`running
      ensures Valid()
      ensures |numbers| == |old(numbers)| && multiset(numbers) == multiset(old(numbers))
      ensures |old(numbers)| < 2 ==> numbers == old(numbers) && sorted
      ensures running ==> old(running) && sorted && numbers == BubbleSorted(old(numbers))
      ensures running ==> IsSorted(numbers)
      ensures !running && |old(numbers)| >= 2 ==> !sorted
    {
      ghost var orig := numbers;
      var i, size := 0, |numbers|;
      while i < size - 1
        invariant 0 <= i <= size && (size > 0 ==> i <= size - 1)
        invariant |numbers| == size
        invariant multiset(numbers) == multiset(orig)
        invariant numbers == Passes(orig, i)
        invariant running ==> old(running)
        invariant i > 0 ==> running
        invariant !sorted
      {
        var quit := BubblePass(size - i - 1);
        if quit {
          return;
        }
        i := i + 1;
      }
      BubbleSortSorts(orig);
      sorted := true;
    }

    /**
     * The frame loop: poll events, then sort if not yet sorted, while the
     * engine is running. The source loops until a quit arrives; `ticks`
     * bounds the number of frames modelled.
     */
    method Run(ticks: nat)
      requires Valid()
      modifies this`numbers, this`sorted, this`running
      ensures Valid()
      ensures |numbers| == |old(numbers)| && multiset(numbers) == multiset(old(numbers))
      ensures old(MetadataCurrent()) ==> MetadataCurrent()
      ensures old(sorted) ==> sorted && numbers == old(numbers)
      ensures ticks > 0 && running ==> sorted && IsSorted(numbers)
      ensures running ==> old(running)
    {
      var t := 0;
      while running && t < ticks
        invariant 0 <= t <= ticks
        invariant Valid()
        invariant |numbers| == |old(numbers)| && multiset(numbers) == multiset(old(numbers))
        invariant old(MetadataCurrent()) ==> MetadataCurrent()
        invariant old(sorted) ==> sorted && numbers == old(numbers)
        invariant t > 0 && running ==> sorted
        invariant t == 0 ==> running == old(running)
        invariant running ==> old(running)
      {
        HandleEvents();
        if !sorted {
          ghost var before := numbers;
          BubbleSort();
          if old(MetadataCurrent()) {
            MaximumOfPermutation(maxValue, before, numbers);
          }
        }
        t := t + 1;
      }
    }

    /**
     * The rectangles drawColumns fills, in the order it fills them: from the
     * last number down to the first. Heights are the guarded SafeColumnHeight:
     * where `maxValue != 0` they are the written `v * Y / maxValue`, and where
     * `maxValue == 0` the columns are flat instead of dividing by zero.
     */
    method DrawColumns() returns (cols: seq<Rect>)
      ensures |cols| == |numbers|
      ensures forall k :: 0 <= k < |cols| ==>
        cols[k] == Column(|numbers| - 1 - k, numbers[|numbers| - 1 - k], columnWidth, windowY, maxValue)
      ensures maxValue != 0 ==> forall k :: 0 <= k < |cols| ==>
        cols[k].h == ColumnHeight(numbers[|numbers| - 1 - k], windowY, maxValue)
      ensures maxValue == 0 ==> forall k :: 0 <= k < |cols| ==> cols[k].h == 0 && cols[k].y == windowY
      ensures MetadataCurrent() ==> forall k :: 0 <= k < |cols| ==>
        0 <= cols[k].x && cols[k].x + cols[k].w <= windowX
      ensures MetadataCurrent() ==> forall k :: 0 <= k < |cols| && 0 <= numbers[|numbers| - 1 - k] ==>
        0 <= cols[k].h <= windowY && 0 <= cols[k].y <= windowY && cols[k].y + cols[k].h == windowY
    {
      cols := [];
      var i := |numbers|;
      while i > 0
        invariant 0 <= i <= |numbers|
        invariant |cols| == |numbers| - i
        invariant forall k :: 0 <= k < |cols| ==>
          cols[k] == Column(|numbers| - 1 - k, numbers[|numbers| - 1 - k], columnWidth, windowY, maxValue)
      {
        cols := cols + [Column(i - 1, numbers[i - 1], columnWidth, windowY, maxValue)];
        i := i - 1;
      }
      if MetadataCurrent() {
        forall k | 0 <= k < |cols|
          ensures 0 <= cols[k].x && cols[k].x + cols[k].w <= windowX
        {
          ColumnsFitWindow(|numbers| - 1 - k, |numbers|, windowX);
        }
        forall k | 0 <= k < |cols| && 0 <= numbers[|numbers| - 1 - k]
          ensures 0 <= cols[k].h <= windowY
        {
          assert numbers[|numbers| - 1 - k] in numbers;
        }
      }
    }
  }
}
