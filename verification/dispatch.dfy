/** The message callback that listen subscribes on "<prefix>/command/#":
    nine independent checks, each comparing the whole topic with one command
    topic and, on a match, validating the payload. Calls to the host
    (osascript, pmset, caffeinate, shutdown, shortcuts) and the status
    re-publications that follow a change are returned as actions, in the
    order the callback performs them. */
module Dispatch {
  import opened Results
  import opened Strconv
  import opened Hostname

  datatype Action =
    | SetVolume(level: int)
    | SetInputVolume(level: int)
    | SetMute(muted: bool)
    | Sleep
    | DisplaySleep
    | DisplayLock
    | DisplayWake
    | Shutdown
    | RunShortcut(shortcut: string)
      /** read the current value again and publish it on this status topic */
    | Republish(topic: string)

  /** The topic a command arrives on. */
  function CommandTopic(host: string, name: string): string {
    TopicPrefix(host) + "/command/" + name
  }

  /** The topic a reading is published on. */
  function StatusTopic(host: string, name: string): string {
    TopicPrefix(host) + "/status/" + name
  }

  const CommandNames: seq<string> := [
    "volume", "input_volume", "mute", "sleep", "displaysleep",
    "displaylock", "displaywake", "shutdown", "runshortcut"]

  /** Atoi succeeded and the level lies in 0..100. */
  predicate IsLevel(payload: string, i: int) {
    Atoi(payload) == Some(i) && 0 <= i <= 100
  }

  function OnVolume(host: string, topic: string, payload: string): seq<Action> {
    if topic != CommandTopic(host, "volume") then []
    else match Atoi(payload)
      case Some(i) =>
        if 0 <= i <= 100
        then [SetVolume(i), Republish(StatusTopic(host, "volume")), Republish(StatusTopic(host, "mute"))]
        else []
      case None => []
  }

  function OnInputVolume(host: string, topic: string, payload: string): seq<Action> {
    if topic != CommandTopic(host, "input_volume") then []
    else match Atoi(payload)
      case Some(i) =>
        if 0 <= i <= 100 then [SetInputVolume(i), Republish(StatusTopic(host, "input_volume"))] else []
      case None => []
  }

  function OnMute(host: string, topic: string, payload: string): seq<Action> {
    if topic != CommandTopic(host, "mute") then []
    else match ParseBool(payload)
      case Some(b) => [SetMute(b), Republish(StatusTopic(host, "volume")), Republish(StatusTopic(host, "mute"))]
      case None => []
  }

  /** The commands whose payload must repeat the command's own name. */
  function OnExactPayload(host: string, topic: string, payload: string, name: string, action: Action): seq<Action> {
    if topic == CommandTopic(host, name) && payload == name then [action] else []
  }

  function OnDisplayLock(host: string, topic: string, payload: string): seq<Action> {
    if topic != CommandTopic(host, "displaylock") then []
    else
      (if payload == "displaylock" then [DisplayLock] else [])
      + (if payload == "displaylock_sleep" then [DisplayLock, DisplaySleep] else [])
  }

  function OnRunShortcut(host: string, topic: string, payload: string): seq<Action> {
    if topic == CommandTopic(host, "runshortcut") then [RunShortcut(payload)] else []
  }

  /** Everything the callback does for one message, for the sanitised host name `host`. */
  function Handle(host: string, topic: string, payload: string): seq<Action> {
    OnVolume(host, topic, payload)
    + OnInputVolume(host, topic, payload)
    + OnMute(host, topic, payload)
    + OnExactPayload(host, topic, payload, "sleep", Sleep)
    + OnExactPayload(host, topic, payload, "displaysleep", DisplaySleep)
    + OnDisplayLock(host, topic, payload)
    + OnExactPayload(host, topic, payload, "displaywake", DisplayWake)
    + OnExactPayload(host, topic, payload, "shutdown", Shutdown)
    + OnRunShortcut(host, topic, payload)
  }

  /** Different command names give different topics. */
  lemma CommandTopicInjective(host: string, n1: string, n2: string)
    requires CommandTopic(host, n1) == CommandTopic(host, n2)
    ensures n1 == n2
  {
    var p := TopicPrefix(host) + "/command/";
    assert CommandTopic(host, n1) == p + n1 && CommandTopic(host, n2) == p + n2;
    assert n1 == (p + n1)[|p|..];
    assert n2 == (p + n2)[|p|..];
  }

  lemma TopicsDistinct(host: string, name: string, other: string)
    requires name != other
    ensures CommandTopic(host, name) != CommandTopic(host, other)
  {
    if CommandTopic(host, name) == CommandTopic(host, other) {
      CommandTopicInjective(host, name, other);
    }
  }

  /** A command topic is the topic of no other check, so a message never
      triggers two commands. */
  lemma OnlyItsOwnCheck(host: string, name: string)
    ensures name != "volume" ==> CommandTopic(host, name) != CommandTopic(host, "volume")
    ensures name != "input_volume" ==> CommandTopic(host, name) != CommandTopic(host, "input_volume")
    ensures name != "mute" ==> CommandTopic(host, name) != CommandTopic(host, "mute")
    ensures name != "sleep" ==> CommandTopic(host, name) != CommandTopic(host, "sleep")
    ensures name != "displaysleep" ==> CommandTopic(host, name) != CommandTopic(host, "displaysleep")
    ensures name != "displaylock" ==> CommandTopic(host, name) != CommandTopic(host, "displaylock")
    ensures name != "displaywake" ==> CommandTopic(host, name) != CommandTopic(host, "displaywake")
    ensures name != "shutdown" ==> CommandTopic(host, name) != CommandTopic(host, "shutdown")
    ensures name != "runshortcut" ==> CommandTopic(host, name) != CommandTopic(host, "runshortcut")
  {
    forall other | other in CommandNames && other != name
      ensures CommandTopic(host, name) != CommandTopic(host, other)
    {
      TopicsDistinct(host, name, other);
    }
  }

  /** A topic that is none of the nine command topics does nothing. */
  lemma HandleOnOtherTopic(host: string, topic: string, payload: string)
    requires forall name :: name in CommandNames ==> topic != CommandTopic(host, name)
    ensures Handle(host, topic, payload) == []
  {
    assert topic != CommandTopic(host, "volume") && topic != CommandTopic(host, "input_volume");
    assert topic != CommandTopic(host, "mute") && topic != CommandTopic(host, "sleep");
    assert topic != CommandTopic(host, "displaysleep") && topic != CommandTopic(host, "displaylock");
    assert topic != CommandTopic(host, "displaywake") && topic != CommandTopic(host, "shutdown");
    assert topic != CommandTopic(host, "runshortcut");
  }

  /** volume: accepted exactly when Atoi reads a level in 0..100; then the
      volume is set and both volume and mute are re-published. */
  lemma VolumeCommand(host: string, payload: string)
    ensures var r := Handle(host, CommandTopic(host, "volume"), payload);
      && (r != [] <==> exists i :: IsLevel(payload, i))
      && (forall i :: IsLevel(payload, i) ==>
            r == [SetVolume(i), Republish(StatusTopic(host, "volume")), Republish(StatusTopic(host, "mute"))])
  {
    OnlyItsOwnCheck(host, "volume");
    if Atoi(payload).Some? && 0 <= Atoi(payload).value <= 100 {
      assert IsLevel(payload, Atoi(payload).value);
    }
  }

  /** input_volume: the same acceptance rule; only input_volume is re-published. */
  lemma InputVolumeCommand(host: string, payload: string)
    ensures var r := Handle(host, CommandTopic(host, "input_volume"), payload);
      && (r != [] <==> exists i :: IsLevel(payload, i))
      && (forall i :: IsLevel(payload, i) ==>
            r == [SetInputVolume(i), Republish(StatusTopic(host, "input_volume"))])
  {
    OnlyItsOwnCheck(host, "input_volume");
    if Atoi(payload).Some? && 0 <= Atoi(payload).value <= 100 {
      assert IsLevel(payload, Atoi(payload).value);
    }
  }

  /** Every level the bridge itself would print is accepted as that level. */
  lemma PrintedLevelsAccepted(host: string, i: int)
    requires 0 <= i <= 100
    ensures Handle(host, CommandTopic(host, "volume"), Itoa(i))
      == [SetVolume(i), Republish(StatusTopic(host, "volume")), Republish(StatusTopic(host, "mute"))]
    ensures Handle(host, CommandTopic(host, "input_volume"), Itoa(i))
      == [SetInputVolume(i), Republish(StatusTopic(host, "input_volume"))]
  {
    AtoiItoa(i);
    VolumeCommand(host, Itoa(i));
    InputVolumeCommand(host, Itoa(i));
  }

  /** A sign and leading zeros are accepted in a volume payload. */
  lemma VolumeAcceptedExamples(host: string)
    ensures Handle(host, CommandTopic(host, "volume"), "50") != []
    ensures Handle(host, CommandTopic(host, "volume"), "+050") != []
  {
    AtoiExamples();
    VolumeCommand(host, "50");
    VolumeCommand(host, "+050");
  }

  /** Numbers outside 0..100 are not volume levels. */
  lemma VolumeOutOfRangeExamples(host: string)
    ensures Handle(host, CommandTopic(host, "volume"), "101") == []
    ensures Handle(host, CommandTopic(host, "volume"), "-1") == []
  {
    AtoiExamples();
    VolumeCommand(host, "101");
    VolumeCommand(host, "-1");
  }

  /** Text that is not a number is not a volume level. */
  lemma VolumeNotANumberExamples(host: string)
    ensures Handle(host, CommandTopic(host, "volume"), "abc") == []
    ensures Handle(host, CommandTopic(host, "volume"), " 50") == []
    ensures Handle(host, CommandTopic(host, "volume"), "") == []
  {
    AtoiExamples();
    VolumeCommand(host, "abc");
    VolumeCommand(host, " 50");
    VolumeCommand(host, "");
  }

  /** mute: accepted exactly for the twelve ParseBool spellings; then mute is
      set and volume and mute are re-published. */
  lemma MuteCommand(host: string, payload: string)
    ensures var r := Handle(host, CommandTopic(host, "mute"), payload);
      && (r != [] <==> payload in TrueSpellings + FalseSpellings)
      && (payload in TrueSpellings ==>
            r == [SetMute(true), Republish(StatusTopic(host, "volume")), Republish(StatusTopic(host, "mute"))])
      && (payload in FalseSpellings ==>
            r == [SetMute(false), Republish(StatusTopic(host, "volume")), Republish(StatusTopic(host, "mute"))])
  {
    OnlyItsOwnCheck(host, "mute");
  }

  /** Concrete mute payloads: Go's single-letter and digit spellings are
      accepted, other capitalisations are not. */
  lemma MutePayloadExamples(host: string)
    ensures Handle(host, CommandTopic(host, "mute"), "1")
      == [SetMute(true), Republish(StatusTopic(host, "volume")), Republish(StatusTopic(host, "mute"))]
    ensures Handle(host, CommandTopic(host, "mute"), "f")
      == [SetMute(false), Republish(StatusTopic(host, "volume")), Republish(StatusTopic(host, "mute"))]
    ensures Handle(host, CommandTopic(host, "mute"), "tRUE") == []
    ensures Handle(host, CommandTopic(host, "mute"), "yes") == []
  {
    MuteCommand(host, "1");
    MuteCommand(host, "f");
    MuteCommand(host, "tRUE");
    MuteCommand(host, "yes");
  }

  /** sleep puts the machine to sleep only for the payload "sleep". */
  lemma SleepCommand(host: string, payload: string)
    ensures Handle(host, CommandTopic(host, "sleep"), payload) == if payload == "sleep" then [Sleep] else []
  {
    OnlyItsOwnCheck(host, "sleep");
  }

  /** displaysleep sleeps the display only for the payload "displaysleep". */
  lemma DisplaySleepCommand(host: string, payload: string)
    ensures Handle(host, CommandTopic(host, "displaysleep"), payload) == if payload == "displaysleep" then [DisplaySleep] else []
  {
    OnlyItsOwnCheck(host, "displaysleep");
  }

  /** displaywake wakes the display only for the payload "displaywake". */
  lemma DisplayWakeCommand(host: string, payload: string)
    ensures Handle(host, CommandTopic(host, "displaywake"), payload) == if payload == "displaywake" then [DisplayWake] else []
  {
    OnlyItsOwnCheck(host, "displaywake");
  }

  /** shutdown shuts the machine down only for the payload "shutdown". */
  lemma ShutdownCommand(host: string, payload: string)
    ensures Handle(host, CommandTopic(host, "shutdown"), payload) == if payload == "shutdown" then [Shutdown] else []
  {
    OnlyItsOwnCheck(host, "shutdown");
  }

  /** displaylock locks for "displaylock", locks then sleeps the display for
      "displaylock_sleep", and ignores anything else. */
  lemma DisplayLockCommand(host: string, payload: string)
    ensures Handle(host, CommandTopic(host, "displaylock"), payload)
      == if payload == "displaylock" then [DisplayLock]
         else if payload == "displaylock_sleep" then [DisplayLock, DisplaySleep]
         else []
  {
    OnlyItsOwnCheck(host, "displaylock");
  }

  /** runshortcut hands any payload, even an empty one, to the shortcuts tool unchanged. */
  lemma RunShortcutCommand(host: string, payload: string)
    ensures Handle(host, CommandTopic(host, "runshortcut"), payload) == [RunShortcut(payload)]
  {
    OnlyItsOwnCheck(host, "runshortcut");
  }

  /** In a command topic the first '/' after "mac2mqtt/" is the one that ends the host name. */
  lemma HostEndsAtFirstSlash(h: string, name: string)
    requires '/' !in h
    ensures var t := CommandTopic(h, name);
      && |t| > 9 + |h| && t[9 + |h|] == '/' && t[9..9 + |h|] == h
      && forall k :: 9 <= k < 9 + |h| ==> t[k] != '/'
  {
    var t := CommandTopic(h, name);
    assert t == "mac2mqtt/" + h + ("/command/" + name);
    forall k | 9 <= k < 9 + |h|
      ensures t[k] != '/'
    {
      assert t[k] == h[k - 9];
    }
  }

  /** Since a sanitised host name holds no '/', the command topics of two
      different hosts never coincide. */
  lemma CommandTopicsOfHostsDisjoint(h1: string, h2: string, n1: string, n2: string)
    requires '/' !in h1 && '/' !in h2
    requires CommandTopic(h1, n1) == CommandTopic(h2, n2)
    ensures h1 == h2 && n1 == n2
  {
    HostEndsAtFirstSlash(h1, n1);
    HostEndsAtFirstSlash(h2, n2);
    if |h1| < |h2| {
      assert false;
    } else if |h2| < |h1| {
      assert false;
    }
    CommandTopicInjective(h1, n1, n2);
  }

  /** A command addressed to another machine does nothing here. */
  lemma OtherHostIgnored(host: string, other: string, name: string, payload: string)
    requires host == SanitizeHostname(host) && other == SanitizeHostname(other) && host != other
    ensures Handle(host, CommandTopic(other, name), payload) == []
  {
    forall n | n in CommandNames
      ensures CommandTopic(other, name) != CommandTopic(host, n)
    {
      if CommandTopic(other, name) == CommandTopic(host, n) {
        CommandTopicsOfHostsDisjoint(other, host, name, n);
      }
    }
  }

  /** How far the callback got: the actions carried out, in order, and whether
      one of them failed. A failing host program ends the process (runCommand
      and getCommandOutput call log.Fatal), so nothing after it happens. */
  datatype Run = Run(performed: seq<Action>, fatal: bool)

  /** Carrying out a list of actions when `succeeds` says which runs succeed. */
  function Perform(actions: seq<Action>, succeeds: Action -> bool): (r: Run)
    ensures r.performed <= actions
    ensures r.fatal <==> exists k :: 0 <= k < |actions| && !succeeds(actions[k])
    ensures !r.fatal ==> r.performed == actions
    ensures r.fatal ==> |r.performed| > 0 && !succeeds(r.performed[|r.performed| - 1])
    ensures forall k :: 0 <= k < |r.performed| - 1 ==> succeeds(r.performed[k])
  {
    if |actions| == 0 then Run([], false)
    else if !succeeds(actions[0]) then Run([actions[0]], true)
    else
      var rest := Perform(actions[1..], succeeds);
      assert forall k :: 1 <= k < |actions| ==> actions[k] == actions[1..][k - 1];
      Run([actions[0]] + rest.performed, rest.fatal)
  }

  /** A volume change whose osascript run fails ends the bridge before the
      volume and mute readings are published again. */
  lemma FailedSetVolumeSkipsRepublish(host: string, payload: string, i: int, succeeds: Action -> bool)
    requires IsLevel(payload, i) && !succeeds(SetVolume(i))
    ensures Perform(Handle(host, CommandTopic(host, "volume"), payload), succeeds) == Run([SetVolume(i)], true)
  {
    VolumeCommand(host, payload);
  }
}
