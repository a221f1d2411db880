/** Topic strings: the command subscription and the topic a response is published to. */
module MqttTopics {
  import opened Wrappers

  /** Size of the buffer for the base topic, and of the one the subscription filter is built in. */
  const MAX_TOPIC_LEN: nat := 64
  const FILTER_BUFFER: nat := 69

  const COMMAND_FILTER: string := "cmd/+"
  const RESPONSE: string := "rsp"

  /** What snprintf or strlcpy leaves in a buffer of n bytes. */
  function Truncate(s: string, n: nat): string
    requires n > 0
  {
    if |s| < n then s else s[..n - 1]
  }

  predicate EndsWithSlash(s: string) { s != "" && s[|s| - 1] == '/' }

  function WithoutLeadingSlash(s: string): string {
    if s != "" && s[0] == '/' then s[1..] else s
  }

  function Separator(base: string): string { if EndsWithSlash(base) then "" else "/" }

  /** build_topic into a buffer of n bytes; None is a null suffix. */
  function BuildTopic(base: string, suffix: Option<string>, n: nat): string
    requires n > 0
  {
    if base == "" then
      match suffix
      case None => ""
      case Some(s) => Truncate(s, n)
    else
      var s := match suffix case None => "" case Some(s) => WithoutLeadingSlash(s);
      if s == "" then Truncate(base, n) else Truncate(base + Separator(base) + s, n)
  }

  /** The topic of publish_message: its buffer is allocated for the whole string. */
  function PublishTopic(base: string, suffix: string): string {
    base + Separator(base) + WithoutLeadingSlash(suffix)
  }

  /** strrchr for a slash: the index of the last one. */
  function LastSlash(s: string): (r: Option<nat>)
    ensures r.Some? ==> r.value < |s| && s[r.value] == '/' && '/' !in s[r.value + 1..]
    ensures r.None? ==> '/' !in s
  {
    if s == "" then None
    else if s[|s| - 1] == '/' then Some(|s| - 1)
    else
      var r := LastSlash(s[..|s| - 1]);
      assert s == s[..|s| - 1] + [s[|s| - 1]];
      if r.Some? then assert s[r.value + 1..] == s[..|s| - 1][r.value + 1..] + [s[|s| - 1]]; r else r
  }

  /** publish_response: the last level of the command topic becomes the last level of the response topic. */
  function ResponseTopic(base: string, commandTopic: string): string {
    var slash := LastSlash(commandTopic);
    if slash.None? || slash.value + 1 == |commandTopic| then PublishTopic(base, RESPONSE)
    else PublishTopic(base, RESPONSE + "/" + commandTopic[slash.value + 1..])
  }

  function CommandFilter(base: string): string { BuildTopic(base, Some(COMMAND_FILTER), FILTER_BUFFER) }

  // ----- topic filters, section 4.7.1 of MQTT 3.1.1 -----

  /** The levels of a topic: its parts between slashes. */
  function Levels(s: string): (r: seq<string>)
    ensures |r| > 0
    ensures forall l :: l in r ==> '/' !in l
    decreases |s|
  {
    var slash := LastSlash(s);
    if slash.None? then [s] else Levels(s[..slash.value]) + [s[slash.value + 1..]]
  }

  /** A plus sign matches exactly one level, every other level only itself. */
  predicate Matches(filter: string, topic: string) {
    var f, t := Levels(filter), Levels(topic);
    |f| == |t| && forall i :: 0 <= i < |f| ==> f[i] == "+" || f[i] == t[i]
  }

  lemma {:induction false} LevelsAppend(a: string, b: string)
    requires '/' !in b
    ensures Levels(a + "/" + b) == Levels(a) + [b]
  {
    var s := a + "/" + b;
    assert s[|a| + 1..] == b && s[..|a|] == a;
    LastSlashIs(s, |a|);
  }

  lemma {:induction false} LastSlashIs(s: string, i: nat)
    requires i < |s| && s[i] == '/' && '/' !in s[i + 1..]
    ensures LastSlash(s) == Some(i)
    decreases |s|
  {
    var n := |s| - 1;
    if i < n {
      assert s[i + 1..][n - i - 1] == s[n];
      assert s[..n][i + 1..] == s[i + 1..][..n - i - 1];
      LastSlashIs(s[..n], i);
    }
  }

  function Key(topic: string): string {
    var l := Levels(topic); l[|l| - 1]
  }

  /** The base and the slash behind it. */
  function Prefix(base: string): string { base + Separator(base) }

  /** The base without a slash at its end. */
  function Stem(base: string): string { if EndsWithSlash(base) then base[..|base| - 1] else base }

  lemma StemSlash(base: string)
    requires base != ""
    ensures Stem(base) + "/" == Prefix(base)
  {
  }

  /** The subscription is built whole exactly when the base leaves room for it. */
  lemma FilterUntruncatedIffFits(base: string)
    requires base != "" && |base| < MAX_TOPIC_LEN
    ensures CommandFilter(base) == Prefix(base) + COMMAND_FILTER <==> |base| <= 62 || EndsWithSlash(base)
  {
    assert WithoutLeadingSlash(COMMAND_FILTER) == COMMAND_FILTER;
    assert |COMMAND_FILTER| == 5;
  }

  /**
   * A topic matched by the subscription, with a non-empty last level, is answered on base/rsp/key with that
   * same key; and it is base/cmd/key itself when no level of the base is a wildcard.
   */
  lemma ResponseHasSameKey(base: string, topic: string)
    requires base != "" && |base| < MAX_TOPIC_LEN && (|base| <= 62 || EndsWithSlash(base))
    requires Matches(CommandFilter(base), topic) && Key(topic) != ""
    ensures ResponseTopic(base, topic) == Prefix(base) + "rsp/" + Key(topic)
    ensures "+" !in Levels(Stem(base)) ==> topic == Prefix(base) + "cmd/" + Key(topic)
  {
    hide Levels, LastSlash, CommandFilter, Matches;
    MatchedLevels(base, topic);
    LastLevel(topic);
    assert |Levels(topic)| > 1;
    var suffix := RESPONSE + "/" + Key(topic);
    assert suffix[0] == 'r' && WithoutLeadingSlash(suffix) == suffix;
    assert Prefix(base) + suffix == Prefix(base) + "rsp/" + Key(topic);
    if "+" !in Levels(Stem(base)) {
      var front := topic[..LastSlash(topic).value];
      assert Levels(front) == Levels(topic)[..|Levels(topic)| - 1];
      LevelsAppend(Stem(base), "cmd");
      LevelsInjective(front, Stem(base) + "/" + "cmd");
      StemSlash(base);
      assert topic == front + "/" + Key(topic);
    }
  }

  lemma {:induction false} LastLevel(s: string)
    ensures |Levels(s)| > 1 ==>
              && LastSlash(s).Some? && s[LastSlash(s).value + 1..] == Key(s)
              && Levels(s) == Levels(s[..LastSlash(s).value]) + [Key(s)]
              && s == s[..LastSlash(s).value] + "/" + Key(s)
  {
  }

  /** Levels matched by a filter of fixed levels and a wildcard behind them. */
  lemma MatchedByFixed(f: seq<string>, t: seq<string>, stem: seq<string>)
    requires f == stem + ["cmd"] + ["+"] && |f| == |t|
    requires forall i :: 0 <= i < |f| ==> f[i] == "+" || f[i] == t[i]
    ensures |t| == |stem| + 2
    ensures "+" !in stem ==> t[..|t| - 1] == stem + ["cmd"]
  {
    assert "cmd" != "+";
    if "+" !in stem {
      forall i | 0 <= i < |stem| + 1 ensures t[i] == (stem + ["cmd"])[i] {
        assert f[i] == (stem + ["cmd"])[i];
      }
    }
  }

  lemma {:induction false} MatchedLevels(base: string, topic: string)
    requires base != "" && |base| < MAX_TOPIC_LEN && (|base| <= 62 || EndsWithSlash(base))
    requires Matches(CommandFilter(base), topic)
    ensures var stem, t := Levels(Stem(base)), Levels(topic);
            && |t| == |stem| + 2
            && ("+" !in stem ==> t[..|t| - 1] == stem + ["cmd"])
  {
    hide Levels, CommandFilter, EndsWithSlash, Stem;
    FilterLevels(base);
    MatchedByFixed(Levels(CommandFilter(base)), Levels(topic), Levels(Stem(base)));
  }

  lemma FilterLevels(base: string)
    requires base != "" && |base| < MAX_TOPIC_LEN && (|base| <= 62 || EndsWithSlash(base))
    ensures Levels(CommandFilter(base)) == Levels(Stem(base)) + ["cmd"] + ["+"]
  {
    hide Levels;
    FilterUntruncatedIffFits(base);
    StemSlash(base);
    assert COMMAND_FILTER == "cmd" + "/" + "+";
    assert CommandFilter(base) == Stem(base) + "/" + "cmd" + "/" + "+";
    LevelsAppend(Stem(base) + "/" + "cmd", "+");
    LevelsAppend(Stem(base), "cmd");
  }

  lemma {:induction false} LevelsInjective(a: string, b: string)
    requires Levels(a) == Levels(b)
    ensures a == b
    decreases |a|
  {
    var i, j := LastSlash(a), LastSlash(b);
    if i.Some? && j.Some? {
      var u, v := Levels(a), Levels(b);
      assert Levels(a[..i.value]) == u[..|u| - 1] == v[..|v| - 1] == Levels(b[..j.value]);
      LevelsInjective(a[..i.value], b[..j.value]);
      assert a == a[..i.value] + "/" + a[i.value + 1..];
      assert b == b[..j.value] + "/" + b[j.value + 1..];
    } else {
      assert i.None? ==> |Levels(a)| == 1;
      assert j.None? ==> |Levels(b)| == 1;
      assert i.Some? ==> |Levels(a)| > 1;
      assert j.Some? ==> |Levels(b)| > 1;
    }
  }

  /** Two commands are answered on the same topic exactly when their keys are equal. */
  lemma ResponseTopicsDistinct(base: string, t: string, t': string)
    requires base != "" && |base| < MAX_TOPIC_LEN && (|base| <= 62 || EndsWithSlash(base))
    requires Matches(CommandFilter(base), t) && Key(t) != ""
    requires Matches(CommandFilter(base), t') && Key(t') != ""
    ensures ResponseTopic(base, t) == ResponseTopic(base, t') <==> Key(t) == Key(t')
  {
    ResponseHasSameKey(base, t);
    ResponseHasSameKey(base, t');
    var p := Prefix(base) + "rsp/";
    assert (p + Key(t))[|p|..] == Key(t) && (p + Key(t'))[|p|..] == Key(t');
  }

  /** The two ways of building a topic agree exactly when the base is not empty. */
  lemma BuildersAgreeIffBase(base: string, suffix: string)
    requires WithoutLeadingSlash(suffix) != ""
    ensures BuildTopic(base, Some(suffix), |base| + |suffix| + 2) == PublishTopic(base, suffix)
            <==> base != "" || suffix[0] == '/'
  {
    if base == "" && suffix[0] == '/' {
      assert "" + "/" + suffix[1..] == suffix;
    } else if base == "" {
      assert PublishTopic(base, suffix)[0] == '/';
    }
  }

  /** A topic is built into its buffer whole, or cut off to fill it up to the terminator. */
  lemma BuildTopicTruncates(base: string, suffix: string, n: nat)
    requires n > 0 && base != "" && WithoutLeadingSlash(suffix) != ""
    ensures var topic, whole := BuildTopic(base, Some(suffix), n), PublishTopic(base, suffix);
            topic <= whole && |topic| == if |whole| < n then |whole| else n - 1
  {
  }

  /** A command topic without a slash, or with nothing behind the last one, is answered without a key. */
  lemma {:induction false} ResponseWithoutKey(base: string, topic: string)
    requires base != ""
    ensures '/' !in topic || EndsWithSlash(topic) ==> ResponseTopic(base, topic) == Prefix(base) + RESPONSE
  {
    assert RESPONSE[0] == 'r';
    if EndsWithSlash(topic) {
      LastSlashIs(topic, |topic| - 1);
    }
  }
}
