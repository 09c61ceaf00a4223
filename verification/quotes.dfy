/**
 The quote source: quotes bucketed into four length categories, random
 selection with a fallback category, and counts. Reading and parsing the
 quote file is not modelled; its outcome is passed in as an optional list
 of raw records.
 */
module Quotes {

  import opened Options

  /** A passage to type. `length` is the declared length used for bucketing. */
  datatype Quote = Quote(text: string, source: string, length: int, id: int)

  /** A record of the quote file: `source`, `length` and `id` may be absent. */
  datatype RawQuote = RawQuote(text: string, source: Option<string>, length: Option<int>, id: Option<int>)

  /** The four length categories. */
  datatype Category = Short | Medium | Long | VeryLong

  /** The four category lists, keyed by category. */
  datatype Bank = Bank(short: seq<Quote>, medium: seq<Quote>, long: seq<Quote>, veryLong: seq<Quote>)

  /** The key under which a category is stored and requested. */
  function Name(c: Category): string {
    match c
    case Short => "short"
    case Medium => "medium"
    case Long => "long"
    case VeryLong => "very_long"
  }

  /** The category a key names, if any. */
  function Parse(s: string): (r: Option<Category>)
    ensures r.Some? ==> Name(r.value) == s
  {
    if s == "short" then Some(Short)
    else if s == "medium" then Some(Medium)
    else if s == "long" then Some(Long)
    else if s == "very_long" then Some(VeryLong)
    else None
  }

  /** Every category is found again under its own key, so the keys are distinct. */
  lemma ParseName(c: Category)
    ensures Parse(Name(c)) == Some(c)
  {
  }

  /** The length range each category stands for; upper bounds are inclusive. */
  predicate Fits(c: Category, n: int) {
    match c
    case Short => n <= 100
    case Medium => 100 < n <= 300
    case Long => 300 < n <= 600
    case VeryLong => 600 < n
  }

  /** The bucket a quote of declared length `n` is loaded into. */
  function CategoryOf(n: int): (c: Category)
    ensures Fits(c, n)
  {
    if n <= 100 then Short
    else if n <= 300 then Medium
    else if n <= 600 then Long
    else VeryLong
  }

  /** Each length belongs to exactly one category: the ranges do not overlap. */
  lemma CategoryOfIsTheOnlyFit(c: Category, n: int)
    ensures Fits(c, n) <==> c == CategoryOf(n)
  {
  }

  /** The thresholds are inclusive on the upper bound. */
  lemma Thresholds()
    ensures CategoryOf(100) == Short && CategoryOf(101) == Medium
    ensures CategoryOf(300) == Medium && CategoryOf(301) == Long
    ensures CategoryOf(600) == Long && CategoryOf(601) == VeryLong
  {
  }

  const Empty: Bank := Bank([], [], [], [])

  /** The list of category `c`. */
  function Get(b: Bank, c: Category): seq<Quote> {
    match c
    case Short => b.short
    case Medium => b.medium
    case Long => b.long
    case VeryLong => b.veryLong
  }

  /** The dictionary lookup `quotes_by_category.get(key)`. */
  function Bucket(b: Bank, key: string): (r: Option<seq<Quote>>)
    ensures r.Some? <==> Parse(key).Some?
    ensures r.Some? ==> r.value == Get(b, Parse(key).value)
  {
    match Parse(key)
    case Some(c) => Some(Get(b, c))
    case None => None
  }

  /** A record of the file as a quote: a missing source reads "Unknown", a
      missing length is the text's length, a missing id is 0. */
  function FromRaw(q: RawQuote): (r: Quote)
    ensures r.text == q.text
    ensures q.length.None? ==> r.length == |q.text|
    ensures q.length.Some? ==> r.length == q.length.value
    ensures r.source == (if q.source.Some? then q.source.value else "Unknown")
    ensures r.id == (if q.id.Some? then q.id.value else 0)
  {
    Quote(
      q.text,
      if q.source.Some? then q.source.value else "Unknown",
      if q.length.Some? then q.length.value else |q.text|,
      if q.id.Some? then q.id.value else 0)
  }

  /** Appends `q` to the bucket of its declared length. */
  function Place(b: Bank, q: Quote): (r: Bank)
    ensures Get(r, CategoryOf(q.length)) == Get(b, CategoryOf(q.length)) + [q]
    ensures forall c :: c != CategoryOf(q.length) ==> Get(r, c) == Get(b, c)
  {
    match CategoryOf(q.length)
    case Short => b.(short := b.short + [q])
    case Medium => b.(medium := b.medium + [q])
    case Long => b.(long := b.long + [q])
    case VeryLong => b.(veryLong := b.veryLong + [q])
  }

  /** The categorisation loop of the loader, starting from empty buckets. */
  function Categorize(qs: seq<Quote>): (r: Bank)
    ensures WellBucketed(r)
  {
    if |qs| == 0 then Empty else Place(Categorize(qs[..|qs| - 1]), qs[|qs| - 1])
  }

  /** The quotes of `qs` whose declared length falls in category `c`, in order. */
  function InCategory(qs: seq<Quote>, c: Category): (r: seq<Quote>)
    ensures forall q :: q in r <==> q in qs && CategoryOf(q.length) == c
  {
    if |qs| == 0 then []
    else
      var q := qs[|qs| - 1];
      assert qs == qs[..|qs| - 1] + [q];
      InCategory(qs[..|qs| - 1], c) + (if CategoryOf(q.length) == c then [q] else [])
  }

  /** Loading keeps the file order within each bucket, and a bucket holds
      exactly the quotes whose length falls in its range. */
  lemma {:induction false} CategorizeIsFilter(qs: seq<Quote>)
    ensures forall c :: Get(Categorize(qs), c) == InCategory(qs, c)
    decreases |qs|
  {
    if |qs| > 0 {
      CategorizeIsFilter(qs[..|qs| - 1]);
    }
  }

  /** All quotes held by the bank, with multiplicity. */
  function AllQuotes(b: Bank): multiset<Quote> {
    multiset(b.short) + multiset(b.medium) + multiset(b.long) + multiset(b.veryLong)
  }

  lemma PlaceAddsOne(b: Bank, q: Quote)
    ensures AllQuotes(Place(b, q)) == AllQuotes(b) + multiset{q}
  {
  }

  /** Every loaded quote is placed in exactly one bucket: the buckets
      together hold the input, each quote counted once. */
  lemma {:induction false} CategorizeKeepsEveryQuote(qs: seq<Quote>)
    ensures AllQuotes(Categorize(qs)) == multiset(qs)
    decreases |qs|
  {
    if |qs| > 0 {
      CategorizeKeepsEveryQuote(qs[..|qs| - 1]);
      PlaceKeepsEveryQuote(Categorize(qs[..|qs| - 1]), qs);
    }
  }

  /** One step of the loading loop: a bank holding all of `qs` but its last
      quote holds all of `qs` once that quote is placed. */
  lemma PlaceKeepsEveryQuote(b: Bank, qs: seq<Quote>)
    requires |qs| > 0 && AllQuotes(b) == multiset(qs[..|qs| - 1])
    ensures AllQuotes(Place(b, qs[|qs| - 1])) == multiset(qs)
  {
    PlaceAddsOne(b, qs[|qs| - 1]);
    assert qs == qs[..|qs| - 1] + [qs[|qs| - 1]];
  }

  // The texts of the built-in quotes, one constant each; the long ones are
  // written as pieces joined with nothing in between.
  const PangramText: string := "The quick brown fox jumps over the lazy dog."
  const PracticeText: string := "Practice makes perfect."
  const TimeFliesText: string := "Time flies when you're having fun."
  const GreatWorkText: string :=
    "The only way to do great work is to love what you do. If "
    + "you haven't found it yet, keep looking. Don't settle."
  const DifficultyText: string :=
    "In the middle of difficulty lies opportunity. Success is "
    + "not final, failure is not fatal: it is the courage to "
    + "continue that counts."
  const PrideText: string :=
    "It is a truth universally acknowledged, that a single man "
    + "in possession of a good fortune, must be in want of a wife. "
    + "However little known the feelings or views of such a man "
    + "may be on his first entering a neighbourhood, this truth is "
    + "so well fixed in the minds of the surrounding families, "
    + "that he is considered the rightful property of some one or "
    + "other of their daughters."
  const HamletText: string :=
    "To be, or not to be, that is the question: whether 'tis "
    + "nobler in the mind to suffer the slings and arrows of "
    + "outrageous fortune, or to take arms against a sea of "
    + "troubles and by opposing end them. To die, to sleep, no "
    + "more; and by a sleep to say we end the heart-ache and the "
    + "thousand natural shocks that flesh is heir to: 'tis a "
    + "consummation devoutly to be wished. To die, to sleep, "
    + "perchance to dream: ay, there's the rub, for in that sleep "
    + "of death what dreams may come, when we have shuffled off "
    + "this mortal coil, must give us pause. There's the respect "
    + "that makes calamity of so long life."

  /** The built-in quotes, used when the quote file is missing or is not
      valid JSON. */
  const Fallback: Bank := Bank(
    [ Quote(PangramText, "Pangram", 46, 0),
      Quote(PracticeText, "Proverb", 23, 0),
      Quote(TimeFliesText, "Proverb", 34, 0) ],
    [ Quote(GreatWorkText, "Steve Jobs", 115, 0),
      Quote(DifficultyText, "Winston Churchill", 134, 0) ],
    [ Quote(PrideText, "Pride and Prejudice", 367, 0) ],
    [ Quote(HamletText, "Hamlet - To Be or Not to Be", 614, 0) ])

  /** A bucket of `InCategory` distributes over concatenation. */
  lemma {:induction false} InCategoryAppend(a: seq<Quote>, b: seq<Quote>, c: Category)
    ensures InCategory(a + b, c) == InCategory(a, c) + InCategory(b, c)
    decreases |b|
  {
    if |b| == 0 {
      assert a + b == a;
    } else {
      var init := b[..|b| - 1];
      var last := b[|b| - 1];
      var tail := if CategoryOf(last.length) == c then [last] else [];
      InCategoryAppend(a, init, c);
      assert (a + b)[..|a + b| - 1] == a + init;
      assert (a + b)[|a + b| - 1] == last;
      assert InCategory(a + b, c) == InCategory(a + init, c) + tail;
      assert InCategory(b, c) == InCategory(init, c) + tail;
    }
  }

  /** A list whose quotes all fall in category `c` is kept whole by that
      bucket and contributes nothing to the others. */
  lemma {:induction false} InCategoryOfUniform(a: seq<Quote>, c: Category, d: Category)
    requires forall q :: q in a ==> CategoryOf(q.length) == c
    ensures InCategory(a, d) == if d == c then a else []
    decreases |a|
  {
    if |a| > 0 {
      var init := a[..|a| - 1];
      var last := a[|a| - 1];
      assert a == init + [last];
      forall q | q in init
        ensures CategoryOf(q.length) == c
      {
        assert q in a;
      }
      InCategoryOfUniform(init, c, d);
      assert CategoryOf(last.length) == c by { assert last in a; }
    }
  }

  /** The buckets of a bank laid end to end, in bucket order. */
  function Grouped(b: Bank): seq<Quote> {
    b.short + b.medium + b.long + b.veryLong
  }

  /** Every quote of each bucket has a declared length in that bucket's range. */
  predicate WellBucketed(b: Bank) {
    forall c, q :: q in Get(b, c) ==> CategoryOf(q.length) == c
  }

  lemma InCategoryOfFour(s: seq<Quote>, m: seq<Quote>, l: seq<Quote>, v: seq<Quote>, d: Category)
    ensures InCategory(s + m + l + v, d) == InCategory(s, d) + InCategory(m, d) + InCategory(l, d) + InCategory(v, d)
  {
    InCategoryAppend(s + m + l, v, d);
    InCategoryAppend(s + m, l, d);
    InCategoryAppend(s, m, d);
  }

  lemma GroupedBucket(b: Bank, d: Category)
    requires WellBucketed(b)
    ensures InCategory(Grouped(b), d) == Get(b, d)
  {
    var s, m, l, v := b.short, b.medium, b.long, b.veryLong;
    InCategoryOfFour(s, m, l, v, d);
    var fs, fm, fl, fv := InCategory(s, d), InCategory(m, d), InCategory(l, d), InCategory(v, d);
    assert InCategory(Grouped(b), d) == fs + fm + fl + fv;
    BucketIsUniform(b, Short, d);
    BucketIsUniform(b, Medium, d);
    BucketIsUniform(b, Long, d);
    BucketIsUniform(b, VeryLong, d);
    match d
    case Short =>
      assert fs == s && fm == [] && fl == [] && fv == [];
      assert fs + fm == s;
      assert fs + fm + fl == s;
    case Medium =>
      assert fs == [] && fm == m && fl == [] && fv == [];
      assert fs + fm == m;
      assert fs + fm + fl == m;
    case Long =>
      assert fs == [] && fm == [] && fl == l && fv == [];
      assert fs + fm == [];
      assert fs + fm + fl == l;
    case VeryLong =>
      assert fs == [] && fm == [] && fl == [] && fv == v;
      assert fs + fm + fl == [];
  }

  lemma BucketIsUniform(b: Bank, c: Category, d: Category)
    requires WellBucketed(b)
    ensures InCategory(Get(b, c), d) == if d == c then Get(b, c) else []
  {
    InCategoryOfUniform(Get(b, c), c, d);
  }

  /** Loading a list already grouped by bucket, in bucket order, gives back
      exactly those groups. */
  lemma CategorizeGrouped(b: Bank)
    requires WellBucketed(b)
    ensures Categorize(Grouped(b)) == b
  {
    CategorizeIsFilter(Grouped(b));
    GroupedBucket(b, Short);
    GroupedBucket(b, Medium);
    GroupedBucket(b, Long);
    GroupedBucket(b, VeryLong);
    var r := Categorize(Grouped(b));
    assert r.short == Get(r, Short) && r.medium == Get(r, Medium);
    assert r.long == Get(r, Long) && r.veryLong == Get(r, VeryLong);
  }

  /** Every built-in quote's declared length lies in the range of the bucket
      it is stored in. */
  lemma FallbackIsWellBucketed()
    ensures WellBucketed(Fallback)
  {
    var b := Fallback;
    assert forall q :: q in b.short ==> q.length in {46, 23, 34};
    assert forall q :: q in b.medium ==> q.length in {115, 134};
    assert forall q :: q in b.long ==> q.length == 367;
    assert forall q :: q in b.veryLong ==> q.length == 614;
  }

  /** The built-in table is what loading its own quotes, in table order,
      would produce. */
  lemma FallbackIsCategorized()
    ensures Categorize(Grouped(Fallback)) == Fallback
  {
    FallbackIsWellBucketed();
    CategorizeGrouped(Fallback);
  }

  /** The declared lengths of the built-in quotes are not their text
      lengths: the very long passage has 595 characters, a long-sized text. */
  lemma FallbackVeryLongTextIsLongSized()
    ensures |Fallback.veryLong[0].text| == 595 && Fallback.veryLong[0].length == 614
    ensures CategoryOf(|Fallback.veryLong[0].text|) == Long
  {
  }

  /** The records of the file read as quotes, in file order. */
  function Records(data: seq<RawQuote>): (qs: seq<Quote>)
    ensures |qs| == |data|
    ensures forall i :: 0 <= i < |data| ==> qs[i] == FromRaw(data[i])
  {
    seq(|data|, i requires 0 <= i < |data| => FromRaw(data[i]))
  }

  /** The loader: the file's quotes bucketed by declared length, in file
      order within each bucket, or the built-in table when the file is
      missing or is not valid JSON (`None`). */
  function LoadQuotes(data: Option<seq<RawQuote>>): (b: Bank)
    ensures data.None? ==> b == Fallback
    ensures data.Some? ==> WellBucketed(b) && |AllQuotes(b)| == |data.value|
    ensures data.Some? ==> forall c :: Get(b, c) == InCategory(Records(data.value), c)
  {
    if data.None? then Fallback
    else
      var qs := Records(data.value);
      CategorizeIsFilter(qs);
      CategorizeKeepsEveryQuote(qs);
      Categorize(qs)
  }

  /** The quote returned when even the fallback category is empty. */
  const NoQuotes: Quote := Quote("No quotes available", "System", 21, 0)

  /** The category `get_random_quote` draws from: the requested one if it is
      a known non-empty bucket, and medium otherwise. */
  function ResolveCategory(b: Bank, key: string): (c: Category)
    ensures c == Medium || Parse(key) == Some(c)
    ensures Parse(key).Some? && |Get(b, Parse(key).value)| > 0 ==> c == Parse(key).value
    ensures Parse(key).None? || |Get(b, Parse(key).value)| == 0 ==> c == Medium
  {
    match Parse(key)
    case Some(c) => if |Get(b, c)| == 0 then Medium else c
    case None => Medium
  }

  /** `get_random_quote`. The random draw is the index `choice`, taken modulo
      the size of the resolved bucket. */
  function RandomQuote(b: Bank, key: string, choice: nat): (q: Quote)
    ensures Parse(key).Some? && |Get(b, Parse(key).value)| > 0 ==> q in Get(b, Parse(key).value)
    ensures (Parse(key).None? || |Get(b, Parse(key).value)| == 0) && |b.medium| > 0 ==> q in b.medium
    ensures (Parse(key).None? || |Get(b, Parse(key).value)| == 0) && |b.medium| == 0 ==> q == NoQuotes
  {
    var l := Get(b, ResolveCategory(b, key));
    if |l| == 0 then NoQuotes else l[choice % |l|]
  }

  /** Every quote of the resolved bucket can be drawn. */
  lemma EveryQuoteCanBeDrawn(b: Bank, key: string, q: Quote)
    requires q in Get(b, ResolveCategory(b, key))
    ensures exists choice: nat :: RandomQuote(b, key, choice) == q
  {
    var l := Get(b, ResolveCategory(b, key));
    var k :| 0 <= k < |l| && l[k] == q;
    assert k % |l| == k;
    assert RandomQuote(b, key, k) == l[k % |l|];
  }

  /** `get_quote_count`: the size of the named bucket (0 for an unknown
      name), or the total when no category or an empty one is given. */
  function QuoteCount(b: Bank, key: Option<string>): (n: nat)
    ensures key.Some? && key.value != "" && Parse(key.value).Some? ==>
              n == |Get(b, Parse(key.value).value)|
    ensures key.Some? && key.value != "" && Parse(key.value).None? ==> n == 0
    ensures key.None? || key.value == "" ==> n == |AllQuotes(b)|
  {
    if key.Some? && key.value != "" then
      match Bucket(b, key.value)
      case Some(l) => |l|
      case None => 0
    else |b.short| + |b.medium| + |b.long| + |b.veryLong|
  }

  /** After loading, the total count is the number of quotes in the file. */
  lemma TotalCountIsLoaded(qs: seq<Quote>)
    ensures QuoteCount(Categorize(qs), None) == |qs|
  {
    CategorizeKeepsEveryQuote(qs);
  }
}
