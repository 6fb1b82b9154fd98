/** The vote widget of docs/assets/js/counter.js: the count's wording
    (`formatCount`, with `toLocaleString` fixed to en-US digit grouping)
    and the button and `localStorage` state the page updates as a vote is
    sent and settles. The request to the counter API is split at its
    `await`: `Vote` starts it, `VoteSettled` receives what came back. */
module VoteWidget {
  import opened Base

  const FlagKey := "1mb_voted"
  const FlagSet := "true"
  const Counted := "counted"
  const Sending := "..."
  const Failed := "error"
  const NoCount := "—"   // an em dash

  /** Decimal digits with a comma before every group of three, counted from
      the right (en-US grouping). */
  function GroupDigits(s: string): (g: string)
    ensures |s| > 0 ==> |g| > 0 && g[0] == s[0]
    decreases |s|
  {
    if |s| <= 3 then s else GroupDigits(s[..|s| - 3]) + "," + s[|s| - 3..]
  }

  /** `n.toLocaleString()` in the en-US locale for an integer. */
  function Grouped(n: int): (g: string)
    ensures |g| > 0
    ensures g[0] == '-' <==> n < 0
  {
    if n < 0 then "-" + GroupDigits(NatToString(-n)) else GroupDigits(NatToString(n))
  }

  /** The string with its commas taken out. */
  function RemoveCommas(g: string): string
    decreases |g|
  {
    if g == [] then [] else RemoveCommas(g[..|g| - 1]) + (if g[|g| - 1] == ',' then [] else [g[|g| - 1]])
  }

  /** `formatCount(count)`: no one yet, one other, or the grouped number.
      A count that is `null` or `undefined` has no `toLocaleString`, so the
      call throws. */
  function FormatCount(count: Option<int>): (r: Result<string>)
    ensures r.Err? <==> count.None?
  {
    match count
    case None => Err("count.toLocaleString is not a function")
    case Some(n) =>
      if n == 0 then Ok("none yet")
      else if n == 1 then Ok("1 other")
      else Ok(Grouped(n) + " others")
  }

  lemma {:induction false} RemoveCommasAppend(a: string, b: string)
    ensures RemoveCommas(a + b) == RemoveCommas(a) + RemoveCommas(b)
    decreases |b|
  {
    if b == [] {
      assert a + b == a;
    } else {
      var b' := b[..|b| - 1];
      assert (a + b)[..|a + b| - 1] == a + b';
      RemoveCommasAppend(a, b');
    }
  }

  lemma {:induction false} RemoveCommasOfDigits(s: string)
    requires AllDigits(s)
    ensures RemoveCommas(s) == s
    decreases |s|
  {
    if s != [] {
      RemoveCommasOfDigits(s[..|s| - 1]);
    }
  }

  /** Taking the commas out of a grouped digit string gives the digits
      back. */
  lemma {:induction false} UngroupDigits(s: string)
    requires AllDigits(s)
    ensures RemoveCommas(GroupDigits(s)) == s
    decreases |s|
  {
    if |s| <= 3 {
      RemoveCommasOfDigits(s);
    } else {
      var front, back := s[..|s| - 3], s[|s| - 3..];
      UngroupDigits(front);
      RemoveCommasAppend(GroupDigits(front) + ",", back);
      RemoveCommasAppend(GroupDigits(front), ",");
      RemoveCommasOfDigits(back);
      assert RemoveCommas(",") == [];
      assert front + back == s;
    }
  }

  /** Where the commas go: one for every full group of three digits after
      the first, and a character is a comma exactly when its distance from
      the end is a multiple of four (each group is three digits and its
      comma). */
  lemma {:induction false} GroupDigitsCommas(s: string)
    requires |s| > 0 && AllDigits(s)
    ensures |GroupDigits(s)| == |s| + (|s| - 1) / 3
    ensures forall k :: 0 <= k < |GroupDigits(s)| ==>
              (GroupDigits(s)[k] == ',' <==> (|GroupDigits(s)| - k) % 4 == 0)
    decreases |s|
  {
    var g := GroupDigits(s);
    if |s| > 3 {
      var front, back := s[..|s| - 3], s[|s| - 3..];
      assert AllDigits(front) by {
        forall k | 0 <= k < |front| ensures IsDigit(front[k]) {
          assert front[k] == s[k];
        }
      }
      GroupDigitsCommas(front);
      var gf := GroupDigits(front);
      assert g == gf + "," + back;
      assert |g| == |gf| + 4;
      forall k | 0 <= k < |g| ensures g[k] == ',' <==> (|g| - k) % 4 == 0 {
        if k < |gf| {
          assert g[k] == gf[k];
          assert (|g| - k) % 4 == (|gf| - k) % 4;
        } else if k > |gf| {
          assert g[k] == back[k - |gf| - 1] == s[|s| - 3 + (k - |gf| - 1)];
        }
      }
    }
  }

  /** The grouped rendering without its commas is the plain decimal
      rendering, with the sign in front. */
  lemma UngroupCount(n: int)
    ensures RemoveCommas(Grouped(n)) == IntToString(n)
  {
    var m: nat := if n < 0 then -n else n;
    UngroupDigits(NatToString(m));
    if n < 0 {
      RemoveCommasAppend("-", GroupDigits(NatToString(m)));
      assert RemoveCommas("-") == "-";
    }
  }

  /** Different counts are worded differently. */
  lemma FormatCountInjective(a: int, b: int)
    requires FormatCount(Some(a)) == FormatCount(Some(b))
    ensures a == b
  {
    var s := FormatCount(Some(a)).value;
    assert s[|s| - 1] == (if a == 0 then 't' else if a == 1 then 'r' else 's');
    assert s[|s| - 1] == (if b == 0 then 't' else if b == 1 then 'r' else 's');
    if a != 0 && a != 1 {
      var ga, gb := Grouped(a), Grouped(b);
      assert ga == s[..|s| - 7] == gb;
      UngroupCount(a);
      UngroupCount(b);
      var ma: nat := if a < 0 then -a else a;
      var mb: nat := if b < 0 then -b else b;
      if a < 0 {
        assert IntToString(a)[1..] == NatToString(ma);
        assert IntToString(b)[1..] == NatToString(mb);
      }
      NatToStringInjective(ma, mb);
    }
  }

  /** The wording of no count, none, one and a few. */
  lemma FormatCountWords()
    ensures FormatCount(Some(0)) == Ok("none yet")
    ensures FormatCount(Some(1)) == Ok("1 other")
    ensures FormatCount(Some(2)) == Ok("2 others")
    ensures FormatCount(None).Err?
  {
    assert NatToString(2) == [DigitChar(2)] == "2";
    assert Grouped(2) == "2";
    assert "2" + " others" == "2 others";
  }

  lemma ThousandsRendered()
    ensures NatToString(1000) == "1000" && NatToString(1500) == "1500"
  {
    assert DigitChar(0) == '0' && DigitChar(1) == '1' && DigitChar(5) == '5';
    assert NatToString(1) == "1";
    assert NatToString(10) == "10";
    assert NatToString(100) == "100";
    assert NatToString(15) == "15";
    assert NatToString(150) == "150";
  }

  lemma ThousandsGrouped()
    ensures GroupDigits("1000") == "1,000" && GroupDigits("1500") == "1,500"
  {
    assert "1000"[..1] == "1" && "1000"[1..] == "000";
    assert "1500"[..1] == "1" && "1500"[1..] == "500";
  }

  /** Thousands are grouped with a comma, after the sign. */
  lemma FormatCountGrouping()
    ensures FormatCount(Some(1000)) == Ok("1,000 others")
    ensures FormatCount(Some(-1500)) == Ok("-1,500 others")
  {
    ThousandsRendered();
    ThousandsGrouped();
    assert Grouped(1000) == "1,000";
    assert "1,000" + " others" == "1,000 others";
    assert Grouped(-1500) == "-1,500";
    assert "-1,500" + " others" == "-1,500 others";
  }

  /** What the count element shows once a count request has settled:
      `formatCount(data.count)` when the response was read and the count
      could be worded, the dash otherwise. `answer` is `Err` when `fetch`
      or `res.json()` rejected and `Ok(data.count)` otherwise. */
  function ShownCount(answer: Result<Option<int>>): (text: string)
    ensures answer.Err? || answer.value.None? ==> text == NoCount
    ensures answer.Ok? && answer.value.Some? ==> text == FormatCount(answer.value).value
  {
    if answer.Err? then NoCount
    else match FormatCount(answer.value)
      case Ok(t) => t
      case Err(_) => NoCount
  }

  /** The page's widget: the stored flag, the button and the count element. */
  class Widget {
    /** `localStorage['1mb_voted']` */
    var flag: Option<string>
    /** `hasVotedLocally`, read once at load. */
    var votedAtLoad: bool
    var disabled: bool
    var buttonText: string
    /** The button carries the `voted` class. */
    var votedClass: bool
    /** The text of the count element. */
    var display: string
    /** A vote request has been sent and has not settled. */
    var pending: bool

    /** The button shows a request in flight, and a vote remembered at load
        keeps the button spent. */
    predicate Valid()
      reads this
    {
      && (pending ==> disabled && buttonText == Sending && !votedAtLoad)
      && (votedAtLoad ==> disabled && buttonText == Counted && votedClass && !pending)
    }

    /** The script's start-up: `hasVotedLocally` is read from the stored
        flag and, when set, the button is marked as counted; the button
        starts enabled with its text from the page otherwise. */
    constructor (stored: Option<string>, pageLabel: string, pageDisplay: string)
      ensures Valid()
      ensures votedAtLoad <==> stored == Some(FlagSet)
      ensures flag == stored && display == pageDisplay && !pending
      ensures votedAtLoad ==> disabled && buttonText == Counted && votedClass
      ensures !votedAtLoad ==> !disabled && buttonText == pageLabel && !votedClass
    {
      flag := stored;
      votedAtLoad := stored == Some(FlagSet);
      pending := false;
      display := pageDisplay;
      disabled := false;
      buttonText := pageLabel;
      votedClass := false;
      new;
      if votedAtLoad {
        buttonText := Counted;
        disabled := true;
        votedClass := true;
      }
    }

    /** `fetchCount()` once its request has settled: only the count element
        changes. */
    method ShowCount(answer: Result<Option<int>>)
      modifies this
      ensures display == ShownCount(answer)
      ensures flag == old(flag) && votedAtLoad == old(votedAtLoad) && disabled == old(disabled)
      ensures buttonText == old(buttonText) && votedClass == old(votedClass) && pending == old(pending)
    {
      if answer.Err? {
        display := NoCount;
        return;
      }
      var text := FormatCount(answer.value);
      if text.Err? {
        display := NoCount;
      } else {
        display := text.value;
      }
    }

    /** `markAsVoted()` */
    method MarkAsVoted()
      modifies this
      ensures flag == Some(FlagSet) && buttonText == Counted && disabled && votedClass
      ensures votedAtLoad == old(votedAtLoad) && display == old(display) && pending == old(pending)
    {
      flag := Some(FlagSet);
      buttonText := Counted;
      disabled := true;
      votedClass := true;
    }

    /** The click handler `vote()` up to its request: a vote remembered at
        load or a disabled button ends it with nothing changed and nothing
        sent; otherwise the button is disabled, shows '...', and the request
        goes out. */
    method Vote() returns (sent: bool)
      requires Valid()
      modifies this
      ensures Valid()
      ensures sent <==> !old(votedAtLoad) && !old(disabled)
      ensures old(pending) ==> !sent
      ensures !sent ==> unchanged(this)
      ensures sent ==> disabled && buttonText == Sending && pending
      ensures sent ==> flag == old(flag) && display == old(display) && votedClass == old(votedClass)
      ensures votedAtLoad == old(votedAtLoad)
    {
      if votedAtLoad || disabled {
        return false;
      }
      disabled := true;
      buttonText := Sending;
      pending := true;
      sent := true;
    }

    /** The rest of `vote()` once the request has settled. A count that can
        be worded is shown and the vote is remembered for good; a failed
        request (or a count that cannot be worded) shows 'error' and enables
        the button again, with the flag left as it was. */
    method VoteSettled(answer: Result<Option<int>>)
      requires Valid() && pending
      modifies this
      ensures Valid() && !pending
      ensures votedAtLoad == old(votedAtLoad)
      ensures answer.Ok? && answer.value.Some? ==>
                && display == FormatCount(answer.value).value
                && flag == Some(FlagSet) && buttonText == Counted && disabled && votedClass
      ensures answer.Err? || answer.value.None? ==>
                && buttonText == Failed && !disabled
                && flag == old(flag) && display == old(display) && votedClass == old(votedClass)
    {
      pending := false;
      var text := if answer.Err? then Err("fetch failed") else FormatCount(answer.value);
      if text.Err? {
        buttonText := Failed;
        disabled := false;
        return;
      }
      display := text.value;
      MarkAsVoted();
    }
  }
}
