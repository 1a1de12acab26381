/** What the options walk recovers: a round trip, and tolerance of truncation. */
module DhcpOptions {
  import opened Bytes
  import opened DhcpProbe

  datatype Opt = Opt(code: Byte, value: seq<Byte>)

  predicate Sendable(o: Opt) {
    0 < o.code < 255 && |o.value| <= 255
  }

  ghost predicate AllSendable(os: seq<Opt>) {
    forall i :: 0 <= i < |os| ==> Sendable(os[i])
  }

  function OneEncoded(o: Opt): seq<Byte>
    requires Sendable(o)
  {
    [o.code, |o.value|] + o.value
  }

  /** An options area as a server lays it out: `pads` zero bytes before each option. */
  function Encoded(os: seq<Opt>, pads: nat): seq<Byte>
    requires forall i :: 0 <= i < |os| ==> Sendable(os[i])
  {
    if os == [] then []
    else
      assert Sendable(os[0]);
      Repeat(0, pads) + OneEncoded(os[0]) + Encoded(os[1..], pads)
  }

  /** The first value given for each code. */
  function FirstWins(os: seq<Opt>, acc: Options): Options {
    if os == [] then acc else FirstWins(os[1..], SetDefault(acc, os[0].code, os[0].value))
  }

  lemma {:induction false} PadsSkipped(data: seq<Byte>, i: nat, n: nat, acc: Options)
    requires i + n <= |data| && forall j :: i <= j < i + n ==> data[j] == 0
    ensures OptionsFrom(data, i, acc) == OptionsFrom(data, i + n, acc)
    decreases n
  {
    if n > 0 {
      PadsSkipped(data, i + 1, n - 1, acc);
    }
  }

  lemma OneOption(data: seq<Byte>, i: nat, o: Opt, acc: Options)
    requires Sendable(o) && i + 2 + |o.value| <= |data|
    requires data[i] == o.code && data[i + 1] == |o.value| && data[i + 2..i + 2 + |o.value|] == o.value
    ensures OptionsFrom(data, i, acc) == OptionsFrom(data, i + 2 + |o.value|, SetDefault(acc, o.code, o.value))
  {
  }

  /** Whatever precedes the area and follows its end mark, parsing gives back each code with
    * the first value it was given.
    */
  lemma {:induction false} OptionsRoundTrip(pre: seq<Byte>, os: seq<Opt>, pads: nat, junk: seq<Byte>, acc: Options)
    requires AllSendable(os)
    ensures OptionsFrom(pre + Encoded(os, pads) + [255] + junk, |pre|, acc) == FirstWins(os, acc)
    decreases |os|
  {
    hide OptionsFrom, SetDefault;
    var data := pre + Encoded(os, pads) + [255] + junk;
    if os == [] {
      EndMark(data, |pre|, acc);
    } else {
      var o := os[0];
      assert Sendable(o);
      var head := OneEncoded(o);
      var tail := Encoded(os[1..], pads) + [255] + junk;
      var pre' := pre + Repeat(0, pads) + head;
      assert data == pre' + tail;
      PadsSkipped(data, |pre|, pads, acc);
      var i := |pre| + pads;
      assert data[i..i + |head|] == head;
      assert data[i] == head[0] && data[i + 1] == head[1] && data[i + 2..i + 2 + |o.value|] == head[2..];
      OneOption(data, i, o, acc);
      assert data == pre' + Encoded(os[1..], pads) + [255] + junk;
      OptionsRoundTrip(pre', os[1..], pads, junk, SetDefault(acc, o.code, o.value));
    }
  }

  lemma EndMark(data: seq<Byte>, i: nat, acc: Options)
    requires i < |data| && data[i] == 255
    ensures OptionsFrom(data, i, acc) == acc
  {
  }

  ghost predicate Within(a: Options, b: Options) {
    forall k :: k in a ==> k in b && a[k] == b[k]
  }

  lemma {:induction false} AccKept(data: seq<Byte>, i: nat, acc: Options)
    ensures Within(acc, OptionsFrom(data, i, acc))
    decreases |data| - i
  {
    if i < |data| && data[i] != 255 {
      if data[i] == 0 {
        AccKept(data, i + 1, acc);
      } else if i + 1 < |data| && i + 2 + data[i + 1] <= |data| {
        var end := i + 2 + data[i + 1];
        AccKept(data, end, SetDefault(acc, data[i], data[i + 2..end]));
      }
    }
  }

  /** Cutting a frame short only loses options: every option still reported is reported with
    * the value the whole area gives it.
    */
  lemma {:induction false} TruncationOnlyLoses(data: seq<Byte>, n: nat, i: nat, acc: Options)
    requires n <= |data|
    ensures Within(OptionsFrom(data[..n], i, acc), OptionsFrom(data, i, acc))
    decreases |data| - i
  {
    var cut := data[..n];
    AccKept(data, i, acc);
    if i < n && data[i] != 255 {
      if data[i] == 0 {
        TruncationOnlyLoses(data, n, i + 1, acc);
      } else if i + 1 < n && i + 2 + data[i + 1] <= n {
        var end := i + 2 + data[i + 1];
        assert cut[i + 2..end] == data[i + 2..end];
        TruncationOnlyLoses(data, n, end, SetDefault(acc, data[i], data[i + 2..end]));
      }
    }
  }
}
