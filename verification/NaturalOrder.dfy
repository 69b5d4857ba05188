/** Natural ordering of page names, for ASCII names, and the page list of an issue built with it. */
module NaturalOrder {
  import opened Characters
  import opened Sequences

  datatype Part = Text(text: string) | Num(value: nat)
  type Key = seq<Part>

  predicate NoDigits(s: string) {
    forall i :: 0 <= i < |s| ==> !IsDigit(s[i])
  }

  // ---------------------------------------------------------------- the key

  /** Where the text, or the run of digits, that starts at i ends. */
  function TextEnd(s: string, i: nat): (n: nat)
    requires i <= |s|
    ensures i <= n <= |s| && (forall k :: i <= k < n ==> !IsDigit(s[k])) && (n < |s| ==> IsDigit(s[n]))
    decreases |s| - i
  {
    if i == |s| || IsDigit(s[i]) then i else TextEnd(s, i + 1)
  }

  function DigitsEnd(s: string, i: nat): (n: nat)
    requires i <= |s|
    ensures i <= n <= |s| && (forall k :: i <= k < n ==> IsDigit(s[k])) && (n < |s| ==> !IsDigit(s[n]))
    decreases |s| - i
  {
    if i == |s| || !IsDigit(s[i]) then i else DigitsEnd(s, i + 1)
  }

  function TextLength(s: string): (n: nat)
    ensures n <= |s| && NoDigits(s[..n]) && (n < |s| ==> IsDigit(s[n]))
  {
    TextEnd(s, 0)
  }

  function DigitsLength(s: string): (n: nat)
    ensures n <= |s| && AllDigits(s[..n]) && (n < |s| ==> !IsDigit(s[n]))
    ensures s != [] && IsDigit(s[0]) ==> n > 0
  {
    DigitsEnd(s, 0)
  }

  /** Splitting around runs of digits gives text, digits, text, ..., with empty text where needed. */
  function NaturalKey(s: string): Key
    decreases |s|
  {
    var t := TextLength(s);
    if t == |s| then [Text(Lower(s))]
    else
      var d := DigitsLength(s[t..]);
      [Text(Lower(s[..t])), Num(Value(s[t..][..d]))] + NaturalKey(s[t..][d..])
  }

  /** Text at the even places and numbers at the odd ones, starting and ending with text. */
  predicate Alternates(k: Key) {
    k != [] && k[0].Text? && (|k| == 1 || (k[1].Num? && Alternates(k[2..])))
  }

  lemma {:induction false} KeysAlternate(s: string)
    ensures Alternates(NaturalKey(s))
    decreases |s|
  {
    var t := TextLength(s);
    if t < |s| {
      var d := DigitsLength(s[t..]);
      KeysAlternate(s[t..][d..]);
      assert NaturalKey(s)[2..] == NaturalKey(s[t..][d..]);
    }
  }

  // ---------------------------------------------------------------- comparing keys

  predicate SameKind(a: Part, b: Part) {
    a.Text? == b.Text?
  }

  predicate PartLess(a: Part, b: Part)
    requires SameKind(a, b)
  {
    if a.Text? then TextLess(a.text, b.text) else a.value < b.value
  }

  /** Comparing the lists never asks whether a number is less than a text. */
  predicate Comparable(a: Key, b: Key)
    decreases |a|
  {
    a == [] || b == [] || (if a[0] == b[0] then Comparable(a[1..], b[1..]) else SameKind(a[0], b[0]))
  }

  /** Python's comparison of lists: the first difference decides, and a proper prefix comes first. */
  predicate Less(a: Key, b: Key)
    requires Comparable(a, b)
    decreases |a|
  {
    b != [] && (a == [] || if a[0] == b[0] then Less(a[1..], b[1..]) else PartLess(a[0], b[0]))
  }

  lemma {:induction false} AlternatingAreComparable(a: Key, b: Key)
    requires Alternates(a) && Alternates(b)
    ensures Comparable(a, b)
    decreases |a|
  {
    if a[0] == b[0] && |a| > 1 && |b| > 1 {
      assert a[1..][1..] == a[2..] && b[1..][1..] == b[2..];
      if a[1] == b[1] { AlternatingAreComparable(a[2..], b[2..]); }
    }
  }

  predicate NameLess(s: string, t: string) {
    KeysAlternate(s);
    KeysAlternate(t);
    AlternatingAreComparable(NaturalKey(s), NaturalKey(t));
    Less(NaturalKey(s), NaturalKey(t))
  }

  /** Sorting names by their keys never compares a number with text. */
  lemma ComparingNamesNeverFails(s: string, t: string)
    ensures Comparable(NaturalKey(s), NaturalKey(t))
  {
    KeysAlternate(s);
    KeysAlternate(t);
    AlternatingAreComparable(NaturalKey(s), NaturalKey(t));
  }

  lemma PartOrder(a: Part, b: Part, c: Part)
    requires SameKind(a, b) && SameKind(b, c)
    ensures !PartLess(a, a)
    ensures PartLess(a, b) || a == b || PartLess(b, a)
    ensures PartLess(a, b) && PartLess(b, c) ==> PartLess(a, c)
  {
    if a.Text? { TextOrder(a.text, b.text, c.text); }
  }

  lemma {:induction false} ComparableSymmetric(a: Key, b: Key)
    requires Comparable(a, b)
    ensures Comparable(b, a)
    decreases |a|
  {
    if a != [] && b != [] && a[0] == b[0] { ComparableSymmetric(a[1..], b[1..]); }
  }

  /** Any two keys are ordered one way, the other way, or equal, and never both ways. */
  lemma {:induction false} LessIsTotal(a: Key, b: Key)
    requires Comparable(a, b)
    ensures Comparable(b, a)
    ensures Less(a, b) || a == b || Less(b, a)
    ensures !(Less(a, b) && Less(b, a)) && (a == b ==> !Less(a, b))
    decreases |a|
  {
    ComparableSymmetric(a, b);
    if a != [] && b != [] {
      if a[0] == b[0] {
        LessIsTotal(a[1..], b[1..]);
        assert a == [a[0]] + a[1..] && b == [b[0]] + b[1..];
      } else {
        PartOrder(a[0], b[0], a[0]);
      }
    }
  }

  lemma {:induction false} LessIsTransitive(a: Key, b: Key, c: Key)
    requires Comparable(a, b) && Comparable(b, c) && Comparable(a, c)
    requires Less(a, b) && Less(b, c)
    ensures Less(a, c)
    decreases |a|
  {
    if a != [] {
      if a[0] == b[0] && b[0] == c[0] {
        LessIsTransitive(a[1..], b[1..], c[1..]);
      } else if a[0] != b[0] && b[0] != c[0] {
        PartOrder(a[0], b[0], c[0]);
        PartOrder(a[0], b[0], a[0]);
      }
    }
  }

  /** Names are totally preordered by their keys. */
  lemma NamesArePreordered(s: string, t: string, u: string)
    ensures NameLess(s, t) || NaturalKey(s) == NaturalKey(t) || NameLess(t, s)
    ensures !(NameLess(s, t) && NameLess(t, s)) && (NaturalKey(s) == NaturalKey(t) ==> !NameLess(s, t))
    ensures NameLess(s, t) && NameLess(t, u) ==> NameLess(s, u)
    ensures !NameLess(t, s) && !NameLess(u, t) ==> !NameLess(u, s)
  {
    ComparingNamesNeverFails(s, t);
    ComparingNamesNeverFails(t, s);
    ComparingNamesNeverFails(t, u);
    ComparingNamesNeverFails(u, t);
    ComparingNamesNeverFails(s, u);
    ComparingNamesNeverFails(u, s);
    LessIsTotal(NaturalKey(s), NaturalKey(t));
    LessIsTotal(NaturalKey(t), NaturalKey(u));
    LessIsTotal(NaturalKey(s), NaturalKey(u));
    if NameLess(s, t) && NameLess(t, u) { LessIsTransitive(NaturalKey(s), NaturalKey(t), NaturalKey(u)); }
    if NameLess(u, s) && NameLess(s, t) { LessIsTransitive(NaturalKey(u), NaturalKey(s), NaturalKey(t)); }
  }

  // ---------------------------------------------------------------- when two names sort alike

  /** A name in lower case, without the leading zeros of its digit runs, read one character at a time. */
  function Plain(s: string, inNumber: bool): string {
    if s == [] then []
    else if IsDigit(s[0]) then
      if s[0] == '0' && !inNumber && |s| > 1 && IsDigit(s[1]) then Plain(s[1..], false)
      else [s[0]] + Plain(s[1..], true)
    else [LowerChar(s[0])] + Plain(s[1..], false)
  }

  lemma {:induction false} DecimalHasValue(n: nat)
    ensures Value(Decimal(n)) == n
  {
    if n >= 10 {
      DecimalHasValue(n / 10);
      assert Decimal(n)[..|Decimal(n)| - 1] == Decimal(n / 10);
    } else {
      assert [DigitChar(n)][..0] == [];
    }
  }

  function StripZeros(d: string): (r: string)
    requires d != [] && AllDigits(d)
    ensures r != [] && AllDigits(r) && (|r| > 1 ==> r[0] != '0')
  {
    if |d| > 1 && d[0] == '0' then StripZeros(d[1..]) else d
  }

  lemma {:induction false} LeadingZero(d: string)
    requires AllDigits(d) && d != [] && d[0] == '0'
    ensures Value(d) == Value(d[1..])
    decreases |d|
  {
    if |d| > 1 {
      var front := d[..|d| - 1];
      LeadingZero(front);
      assert d[1..][..|d| - 2] == front[1..];
    }
  }

  lemma {:induction false} ReadsBack(d: string)
    requires d != [] && AllDigits(d) && (|d| > 1 ==> d[0] != '0')
    ensures Decimal(Value(d)) == d
    ensures |d| > 1 ==> Value(d) >= 10
    decreases |d|
  {
    var front, last := d[..|d| - 1], d[|d| - 1];
    assert d == front + [last];
    if |d| > 1 {
      ReadsBack(front);
      if |front| == 1 { assert front[..0] == [] && DigitValue(front[0]) >= 1; }
      assert Value(d) / 10 == Value(front) && Value(d) % 10 == DigitValue(last);
      assert DigitChar(DigitValue(last)) == last;
    } else {
      assert front == [] && DigitChar(DigitValue(last)) == last;
    }
  }

  /** Writing a number's value out again drops its leading zeros and nothing else. */
  lemma {:induction false} ValueDropsZeros(d: string)
    requires d != [] && AllDigits(d)
    ensures Decimal(Value(d)) == StripZeros(d)
    decreases |d|
  {
    if |d| > 1 && d[0] == '0' {
      LeadingZero(d);
      ValueDropsZeros(d[1..]);
    } else {
      ReadsBack(d);
    }
  }

  /** The key written out again as a name. */
  function Written(k: Key): string {
    if k == [] then [] else (if k[0].Text? then k[0].text else Decimal(k[0].value)) + Written(k[1..])
  }

  lemma {:induction false} PlainText(t: string, rest: string, inNumber: bool)
    requires NoDigits(t)
    ensures Plain(t + rest, inNumber) == Lower(t) + Plain(rest, t == [] && inNumber)
  {
    if t == [] {
      assert t + rest == rest;
    } else {
      PlainText(t[1..], rest, false);
      assert (t + rest)[1..] == t[1..] + rest;
      assert Lower(t) == [LowerChar(t[0])] + Lower(t[1..]);
    }
  }

  predicate StartsWithDigit(s: string) {
    s != [] && IsDigit(s[0])
  }

  lemma {:induction false} PlainDigits(d: string, rest: string)
    requires AllDigits(d) && !StartsWithDigit(rest)
    ensures Plain(d + rest, true) == d + Plain(rest, false)
  {
    if d == [] {
      assert d + rest == rest;
    } else {
      PlainDigits(d[1..], rest);
      assert (d + rest)[1..] == d[1..] + rest;
    }
  }

  lemma {:induction false} PlainNumber(d: string, rest: string)
    requires d != [] && AllDigits(d) && !StartsWithDigit(rest)
    ensures Plain(d + rest, false) == StripZeros(d) + Plain(rest, false)
    decreases |d|
  {
    var s := d + rest;
    assert s[1..] == d[1..] + rest;
    if |d| > 1 && d[0] == '0' {
      PlainNumber(d[1..], rest);
    } else {
      PlainDigits(d[1..], rest);
      assert |s| > 1 && |d| == 1 ==> s[1] == rest[0];
    }
  }

  lemma PlainPieces(t: string, d: string, rest: string)
    requires NoDigits(t) && d != [] && AllDigits(d) && !StartsWithDigit(rest)
    ensures Plain(t + (d + rest), false) == Lower(t) + (StripZeros(d) + Plain(rest, false))
  {
    PlainText(t, d + rest, false);
    PlainNumber(d, rest);
  }

  lemma PlainAlone(t: string)
    requires NoDigits(t)
    ensures Plain(t, false) == Lower(t)
  {
    PlainText(t, [], false);
    assert t + [] == t && Lower(t) + [] == Lower(t);
  }

  lemma WrittenPair(t: string, n: nat, rest: Key)
    ensures Written([Text(t), Num(n)] + rest) == t + (Decimal(n) + Written(rest))
  {
    var k := [Text(t), Num(n)] + rest;
    assert k[1..] == [Num(n)] + rest && ([Num(n)] + rest)[1..] == rest;
  }

  /** Keys of names have lower-case text without digits, and no two numbers touch. */
  predicate CleanKey(k: Key, first: bool) {
    && Alternates(k) && NoDigits(k[0].text) && Lower(k[0].text) == k[0].text
    && (|k| > 1 ==> (first || k[0].text != "") && CleanKey(k[2..], false))
  }

  lemma {:induction false} KeysAreClean(s: string, first: bool)
    requires first || !StartsWithDigit(s)
    ensures CleanKey(NaturalKey(s), first)
    decreases |s|
  {
    KeysAlternate(s);
    var t := TextLength(s);
    var text := Lower(s[..t]);
    assert NoDigits(text) && Lower(text) == text;
    if t < |s| {
      var d := DigitsLength(s[t..]);
      KeysAreClean(s[t..][d..], false);
      assert NaturalKey(s)[2..] == NaturalKey(s[t..][d..]);
    } else {
      assert s[..t] == s;
    }
  }

  lemma TextLengthOf(t: string, rest: string)
    requires NoDigits(t) && (rest == [] || StartsWithDigit(rest))
    ensures TextLength(t + rest) == |t|
  {
    var s := t + rest;
    assert forall k :: 0 <= k < |t| ==> s[k] == t[k];
    if rest != [] { assert s[|t|] == rest[0]; }
  }

  lemma DigitsLengthOf(d: string, rest: string)
    requires AllDigits(d) && !StartsWithDigit(rest)
    ensures DigitsLength(d + rest) == |d|
  {
    var s := d + rest;
    assert forall k :: 0 <= k < |d| ==> s[k] == d[k];
    if rest != [] { assert s[|d|] == rest[0]; }
  }

  lemma ReadPair(t: string, d: string, rest: string)
    requires NoDigits(t) && d != [] && AllDigits(d) && !StartsWithDigit(rest)
    ensures NaturalKey(t + (d + rest)) == [Text(Lower(t)), Num(Value(d))] + NaturalKey(rest)
  {
    var s := t + (d + rest);
    assert StartsWithDigit(d + rest);
    TextLengthOf(t, d + rest);
    DigitsLengthOf(d, rest);
    assert s[..|t|] == t && s[|t|..] == d + rest;
    assert (d + rest)[..|d|] == d && (d + rest)[|d|..] == rest;
  }

  lemma ReadText(t: string)
    requires NoDigits(t)
    ensures NaturalKey(t) == [Text(Lower(t))]
  {
    TextLengthOf(t, []);
    assert t + [] == t;
  }

  /** A name is text alone, or text, digits, and a name that does not start with a digit. */
  lemma Pieces(s: string) returns (t: string, d: string, rest: string)
    ensures NoDigits(t) && AllDigits(d) && !StartsWithDigit(rest) && s == t + (d + rest)
    ensures d == [] ==> rest == []
  {
    var n := TextLength(s);
    t := s[..n];
    var m := DigitsLength(s[n..]);
    d, rest := s[n..][..m], s[n..][m..];
    assert s == t + s[n..] && s[n..] == d + rest;
  }

  /** The key holds exactly what the plain form of the name shows. */
  lemma {:induction false} KeyWritesPlain(s: string)
    ensures Written(NaturalKey(s)) == Plain(s, false)
    decreases |s|
  {
    var t, d, rest := Pieces(s);
    if d == [] {
      assert s == t;
      ReadText(t);
      PlainAlone(t);
      WrittenText(Lower(t));
    } else {
      ReadPair(t, d, rest);
      PlainPieces(t, d, rest);
      ValueDropsZeros(d);
      WrittenPair(Lower(t), Value(d), NaturalKey(rest));
      KeyWritesPlain(rest);
    }
  }

  lemma WrittenText(t: string)
    ensures Written([Text(t)]) == t
  {
    assert [Text(t)][1..] == [] && t + [] == t;
  }

  /** Reading a written key back gives the key. */
  lemma {:induction false} KeyReadsBack(k: Key, first: bool)
    requires CleanKey(k, first)
    ensures NaturalKey(Written(k)) == k
    ensures first || !StartsWithDigit(Written(k))
    decreases |k|
  {
    var t := k[0].text;
    if |k| == 1 {
      assert k == [Text(t)] && k[1..] == [];
      assert Written(k) == t;
      ReadText(t);
    } else {
      var n, rest := k[1].value, k[2..];
      assert k == [Text(t), Num(n)] + rest;
      WrittenPair(t, n, rest);
      KeyReadsBack(rest, false);
      DecimalHasValue(n);
      ReadPair(t, Decimal(n), Written(rest));
    }
  }

  /** Two names get equal keys exactly when they are equal up to letter case and the leading zeros of their
      digit runs. */
  lemma EqualKeysExactly(s: string, t: string)
    ensures NaturalKey(s) == NaturalKey(t) <==> Plain(s, false) == Plain(t, false)
  {
    KeyWritesPlain(s);
    KeyWritesPlain(t);
    KeysAreClean(s, true);
    KeysAreClean(t, true);
    KeyReadsBack(NaturalKey(s), true);
    KeyReadsBack(NaturalKey(t), true);
  }

  // ---------------------------------------------------------------- page lists

  datatype Item<A> = Item(name: string, value: A)

  function ByName<A(!new)>(): (Item<A>, Item<A>) -> bool {
    (x: Item<A>, y: Item<A>) => NameLess(x.name, y.name)
  }

  /** `sort(key=natural_sort_key)`. */
  function NaturallySorted<A(!new)>(xs: seq<Item<A>>): (r: seq<Item<A>>)
    ensures |r| == |xs|
  {
    Sort(xs, ByName())
  }

  lemma ByNameIsWeakOrder<A(!new)>()
    ensures WeakOrder(ByName<A>())
  {
    var less := ByName<A>();
    forall x: Item<A>, y: Item<A> ensures less(x, y) ==> !less(y, x) {
      NamesArePreordered(x.name, y.name, x.name);
    }
    forall x: Item<A>, y: Item<A>, z: Item<A> | !less(y, x) && !less(z, y) ensures !less(z, x) {
      NamesArePreordered(x.name, y.name, z.name);
    }
  }

  /** Items whose names have this key. */
  function WithKey<A(!new)>(key: Key): Item<A> -> bool {
    (x: Item<A>) => NaturalKey(x.name) == key
  }

  /** Sorting gives an ordered permutation in which names that sort alike keep their order. */
  lemma NaturalSortWorks<A(!new)>(xs: seq<Item<A>>)
    ensures multiset(NaturallySorted(xs)) == multiset(xs)
    ensures forall i, k :: 0 <= i <= k < |xs| ==> !NameLess(NaturallySorted(xs)[k].name, NaturallySorted(xs)[i].name)
    ensures forall key: Key :: Filter(NaturallySorted(xs), WithKey(key)) == Filter(xs, WithKey(key))
  {
    var less := ByName<A>();
    ByNameIsWeakOrder<A>();
    SortOrders(xs, less);
    forall i, k | 0 <= i <= k < |xs| ensures !NameLess(NaturallySorted(xs)[k].name, NaturallySorted(xs)[i].name) {
      OrderedPairs(Sort(xs, less), less, i, k);
    }
    forall key: Key ensures Filter(NaturallySorted(xs), WithKey(key)) == Filter(xs, WithKey(key)) {
      var p := WithKey<A>(key);
      forall x: Item<A>, y: Item<A> | p(x) && p(y) ensures !less(x, y) {
        NamesArePreordered(x.name, y.name, x.name);
      }
      SortIsStable(xs, less, p);
    }
  }

  /** Members of an archive; what the name's extension says is a page is given. */
  datatype Member = Member(isFolder: bool, isImage: bool)
  datatype Content = Image | Archive(members: seq<Item<Member>>) | Other
  datatype Page = Page(file: string, member: string)

  predicate Readable(m: Item<Member>) {
    !m.value.isFolder && m.value.isImage
  }

  method ListArchivePages(members: seq<Item<Member>>) returns (pages: seq<Item<Member>>)
    ensures pages == NaturallySorted(Filter(members, Readable))
  {
    pages := [];
    for i := 0 to |members|
      invariant pages == Filter(members[..i], Readable)
    {
      assert members[..i + 1] == members[..i] + [members[i]];
      FilterAppend(members[..i], members[i], Readable);
      if !members[i].value.isFolder && members[i].value.isImage { pages := pages + [members[i]]; }
    }
    assert members[..|members|] == members;
    pages := NaturallySorted(pages);
  }

  function MemberPages(file: string, members: seq<Item<Member>>): (r: seq<Page>)
    ensures |r| == |members| && forall i :: 0 <= i < |r| ==> r[i] == Page(file, members[i].name)
  {
    seq(|members|, i requires 0 <= i < |members| => Page(file, members[i].name))
  }

  /** The pages of one file, in order. */
  function PagesOf(f: Item<Content>): seq<Page> {
    match f.value
    case Image => [Page(f.name, "")]
    case Archive(members) => MemberPages(f.name, NaturallySorted(Filter(members, Readable)))
    case Other => []
  }

  function PageLists(files: seq<Item<Content>>): (r: seq<seq<Page>>)
    ensures |r| == |files| && forall i :: 0 <= i < |r| ==> r[i] == PagesOf(files[i])
  {
    seq(|files|, i requires 0 <= i < |files| => PagesOf(files[i]))
  }

  function PagesOfAll(files: seq<Item<Content>>): seq<Page> {
    Joined(PageLists(files), |files|)
  }

  method BuildPages(f: Item<Content>) returns (pages: seq<Page>)
    ensures pages == PagesOf(f)
  {
    match f.value {
      case Image => return [Page(f.name, "")];
      case Archive(members) =>
        var sorted := ListArchivePages(members);
        return MemberPages(f.name, sorted);
      case Other => return [];
    }
  }

  method PagesInListOrder(ordered: seq<Item<Content>>, ghost lists: seq<seq<Page>>) returns (pages: seq<Page>)
    requires |lists| == |ordered| && forall i :: 0 <= i < |ordered| ==> lists[i] == PagesOf(ordered[i])
    ensures pages == Joined(lists, |lists|)
  {
    pages := [];
    for f := 0 to |ordered|
      invariant pages == Joined(lists, f)
    {
      var more := BuildPages(ordered[f]);
      pages := pages + more;
    }
  }

  method BuildPagesForFiles(files: seq<Item<Content>>) returns (pages: seq<Page>)
    ensures pages == PagesOfAll(NaturallySorted(files))
  {
    var ordered := NaturallySorted(files);
    pages := PagesInListOrder(ordered, PageLists(ordered));
  }

  lemma MembersInOrder(f: Item<Content>, m: nat, n: nat)
    requires m <= n < |PagesOf(f)|
    ensures !NameLess(PagesOf(f)[n].member, PagesOf(f)[m].member)
  {
    if f.value.Archive? {
      NaturalSortWorks(Filter(f.value.members, Readable));
    } else {
      NamesArePreordered("", "", "");
    }
  }

  /** Pages are read in order. Each comes from a file of the list; the files of later pages never come
      earlier in the sorted list nor sort before, and pages of one archive are in the order of their names. */
  lemma PagesAreInOrder(files: seq<Item<Content>>, i: nat, k: nat) returns (f: nat, m: nat, g: nat, n: nat)
    requires i < k < |PagesOfAll(NaturallySorted(files))|
    ensures f <= g < |files| && m < |PagesOf(NaturallySorted(files)[f])| && n < |PagesOf(NaturallySorted(files)[g])|
    ensures PagesOfAll(NaturallySorted(files))[i] == PagesOf(NaturallySorted(files)[f])[m]
    ensures PagesOfAll(NaturallySorted(files))[k] == PagesOf(NaturallySorted(files)[g])[n]
    ensures !NameLess(NaturallySorted(files)[g].name, NaturallySorted(files)[f].name)
    ensures f == g ==>
      m < n && !NameLess(PagesOf(NaturallySorted(files)[f])[n].member, PagesOf(NaturallySorted(files)[f])[m].member)
  {
    var ordered := NaturallySorted(files);
    NaturalSortWorks(files);
    f, m := JoinedSource(PageLists(ordered), |ordered|, i);
    g, n := JoinedSource(PageLists(ordered), |ordered|, k);
    if g < f {
      JoinedGrows(PageLists(ordered), g, f);
    } else if f == g {
      MembersInOrder(ordered[f], m, n);
    }
  }

  /** The page belongs to this file: the file itself if it is an image, or an image inside it if it is an archive. */
  ghost predicate IsPageOf(f: Item<Content>, p: Page) {
    && p.file == f.name
    && match f.value
       case Image => p.member == ""
       case Archive(members) =>
         exists k :: 0 <= k < |members| && !members[k].value.isFolder && members[k].value.isImage && members[k].name == p.member
       case Other => false
  }

  lemma ListedMembers(file: string, members: seq<Item<Member>>, sorted: seq<Item<Member>>, p: Page)
    requires forall m :: m in sorted <==> m in members && !m.value.isFolder && m.value.isImage
    ensures p in MemberPages(file, sorted) <==> IsPageOf(Item(file, Archive(members)), p)
  {
    var pages := MemberPages(file, sorted);
    if p in pages {
      var i :| 0 <= i < |pages| && pages[i] == p;
      assert sorted[i] in members;
      var k :| 0 <= k < |members| && members[k] == sorted[i];
    }
    if IsPageOf(Item(file, Archive(members)), p) {
      var k :| 0 <= k < |members| && !members[k].value.isFolder && members[k].value.isImage && members[k].name == p.member;
      assert members[k] in sorted;
      var i :| 0 <= i < |sorted| && sorted[i] == members[k];
      assert pages[i] == p;
    }
  }

  lemma PagesOfOne(f: Item<Content>, p: Page)
    ensures p in PagesOf(f) <==> IsPageOf(f, p)
  {
    if f.value.Archive? {
      var readable := Filter(f.value.members, Readable);
      FilterMembers(f.value.members, Readable);
      NaturalSortWorks(readable);
      ReorderedMembers(NaturallySorted(readable), readable);
      ListedMembers(f.name, f.value.members, NaturallySorted(readable), p);
    }
  }

  lemma {:induction false} JoinedMembers(lists: seq<seq<Page>>, n: nat, p: Page)
    requires n <= |lists|
    ensures p in Joined(lists, n) <==> exists f :: 0 <= f < n && p in lists[f]
  {
    if n > 0 { JoinedMembers(lists, n - 1, p); }
  }

  lemma ReorderedPages(files: seq<Item<Content>>, ordered: seq<Item<Content>>, lists: seq<seq<Page>>, p: Page)
    requires forall f :: f in ordered <==> f in files
    requires |lists| == |ordered| && forall f :: 0 <= f < |lists| ==> (p in lists[f] <==> IsPageOf(ordered[f], p))
    ensures (exists f :: 0 <= f < |lists| && p in lists[f]) <==> exists i :: 0 <= i < |files| && IsPageOf(files[i], p)
  {
    if f :| 0 <= f < |lists| && p in lists[f] {
      assert ordered[f] in files;
      var i :| 0 <= i < |files| && files[i] == ordered[f];
    }
    if i :| 0 <= i < |files| && IsPageOf(files[i], p) {
      assert files[i] in ordered;
      var f :| 0 <= f < |ordered| && ordered[f] == files[i];
      assert p in lists[f];
    }
  }

  /** Nothing is left out and nothing made up: the pages are the images among the files and inside their archives. */
  lemma PagesExactly(files: seq<Item<Content>>, p: Page)
    ensures p in PagesOfAll(NaturallySorted(files)) <==> exists i :: 0 <= i < |files| && IsPageOf(files[i], p)
  {
    var ordered := NaturallySorted(files);
    NaturalSortWorks(files);
    ReorderedMembers(ordered, files);
    JoinedMembers(PageLists(ordered), |ordered|, p);
    forall f | 0 <= f < |ordered| ensures p in PageLists(ordered)[f] <==> IsPageOf(ordered[f], p) { PagesOfOne(ordered[f], p); }
    ReorderedPages(files, ordered, PageLists(ordered), p);
  }

  /** After the same text, names go by the size of their next number, whatever its zeros and whatever follows. */
  lemma NumbersCountAsNumbers(t: string, d: string, more: string, e: string, rest: string)
    requires NoDigits(t) && d != [] && AllDigits(d) && e != [] && AllDigits(e)
    requires !StartsWithDigit(more) && !StartsWithDigit(rest) && Value(d) != Value(e)
    ensures NameLess(t + (d + more), t + (e + rest)) <==> Value(d) < Value(e)
  {
    ReadPair(t, d, more);
    ReadPair(t, e, rest);
    ComparingNamesNeverFails(t + (d + more), t + (e + rest));
    NumberDecides(NaturalKey(t + (d + more)), NaturalKey(t + (e + rest)), Lower(t),
                  Value(d), Value(e), NaturalKey(more), NaturalKey(rest));
  }

  lemma NumberDecides(a: Key, b: Key, t: string, n: nat, m: nat, more: Key, rest: Key)
    requires Comparable(a, b) && a == [Text(t), Num(n)] + more && b == [Text(t), Num(m)] + rest && n != m
    ensures Less(a, b) <==> n < m
  {
    var x, y := a[1..], b[1..];
    assert x[0] == Num(n) && y[0] == Num(m) && a[0] == b[0];
    assert Less(x, y) == PartLess(x[0], y[0]);
  }

  lemma TextDecides(a: Key, b: Key, t: string, u: string)
    requires Comparable(a, b) && a == [Text(t)] && b == [Text(u)]
    ensures Less(a, b) <==> TextLess(t, u)
  {
    TextOrder(t, t, t);
    if t == u { assert a[1..] == [] && b[1..] == []; }
  }

  /** Names without numbers go by their letters, capital or small. */
  lemma TextsGoByLetters(t: string, u: string)
    requires NoDigits(t) && NoDigits(u)
    ensures NameLess(t, u) <==> TextLess(Lower(t), Lower(u))
  {
    ReadText(t);
    ReadText(u);
    ComparingNamesNeverFails(t, u);
    TextDecides(NaturalKey(t), NaturalKey(u), Lower(t), Lower(u));
  }
}
