/** The "Make App TouchTestable" build step (`MakeAppTouchTestable`): it looks up the
    TouchTest server by the URL it was configured with, installs the MakeAppTouchTestable
    tool from that server, and runs the tool with Java on the project file, against the
    server, with the server's credentials (the password masked in the log), the optional
    target and launch URL, and the user's extra options. The build step succeeds exactly
    when the tool exits with 0. */
module MakeAppTouchTestable {
  import opened Wrappers
  import opened JavaStrings
  import opened ArgumentList
  import opened CloudTestServers

  /** The fields of the step; `None` is a `null` field. */
  datatype Builder = Builder(
    url: Option<string>,
    projectFile: string,
    target: Option<string>,
    launchURL: Option<string>,
    additionalOptions: string)

  /** What `perform` takes from its surroundings. */
  datatype BuildContext = BuildContext(
    /** The home directory of the project's JDK; `None` when the project has no JDK. */
    jdkHome: Option<string>,
    /** `EnvVars.expand` with the build's environment. */
    expand: string -> string,
    /** `new QuotedStringTokenizer(s).toArray()`. */
    tokenize: string -> seq<string>,
    /** The directory the tool was installed into on the build's node. */
    installDir: string,
    /** The path separator `FilePath.child` joins with on that node. */
    separator: string)

  const JarName: string := "MakeAppTouchTestable.jar"

  const NoServerMessage: string := "No TouchTest server is configured in the system configuration."

  /** The Java launcher: the project JDK's `bin/java`, or plain `java` from the path. */
  function JavaCommand(jdkHome: Option<string>): (r: string)
    ensures jdkHome.None? ==> r == "java"
    ensures jdkHome.Some? ==>
      StartsWith(r, jdkHome.value) && EndsWith(r, "/bin/java") && |r| == |jdkHome.value| + |"/bin/java"|
  {
    match jdkHome
    case None => "java"
    case Some(h) =>
      var r := h + "/bin/java";
      assert r[..|h|] == h && r[|r| - |"/bin/java"|..] == "/bin/java";
      r
  }

  /** An optional field is used when it is neither `null` nor blank. */
  predicate Given(v: Option<string>)
  {
    v.Some? && !IsBlank(v.value)
  }

  /** `flag` followed by the expanded value when the field is given, nothing otherwise. */
  function OptionalPair(flag: string, v: Option<string>, expand: string -> string): (r: seq<Arg>)
    ensures |r| == (if Given(v) then 2 else 0)
    ensures Given(v) ==> r[0] == Plain(flag) && r[1] == Plain(expand(v.value))
    ensures NoneMasked(r)
  {
    if Given(v) then PlainAll([flag, expand(v.value)]) else []
  }

  /** The first twelve tokens of the tool's command line: the launcher, the jar, the project
      and the server with its credentials, the password last. */
  function FixedArgs(b: Builder, ctx: BuildContext, s: Server, password: string): seq<Arg>
  {
    [Plain(JavaCommand(ctx.jdkHome))]
    + PlainAll(["-jar", ctx.installDir + ctx.separator + JarName, "-overwriteapp",
                "-project", ctx.expand(b.projectFile),
                "-url", s.url,
                "-username", s.username,
                "-password"])
    + [Masked(password)]
  }

  /** The rest of the tool's command line: the optional pairs, then the user's options. */
  function TrailingArgs(b: Builder, ctx: BuildContext): seq<Arg>
  {
    OptionalPair("-target", b.target, ctx.expand)
    + OptionalPair("-launchURL", b.launchURL, ctx.expand)
    + PlainAll(ctx.tokenize(ctx.expand(b.additionalOptions)))
  }

  /** The tool's command line for server `s`, whose password is `password` (its shape is
      `ToolArgsShape`). */
  function ToolArgs(b: Builder, ctx: BuildContext, s: Server, password: string): seq<Arg>
  {
    FixedArgs(b, ctx, s, password) + TrailingArgs(b, ctx)
  }

  /** How `perform` ends. */
  datatype Outcome =
    /** An `AbortException` with this message; nothing is launched. */
    | Aborted(message: string)
    /** The server has no password: `getPlainText()` is called on `null`. */
    | NullDereference
    /** The tool was launched with `args`; the step returns `success`. */
    | Launched(args: seq<Arg>, success: bool)

  /** `perform`, given the registry and the exit code the launched tool returns. */
  function Perform(b: Builder, ctx: BuildContext, reg: Registry, exitCode: int): (o: Outcome)
    ensures o.Aborted? <==> b.url !in reg.byUrl
    ensures o.Aborted? ==> o.message == NoServerMessage
    ensures o.NullDereference? <==> b.url in reg.byUrl && reg.byUrl[b.url].password.None?
    ensures o.Launched? ==>
      var s := reg.byUrl[b.url];
      s.password.Some? && o.args == ToolArgs(b, ctx, s, s.password.value)
    ensures o.Launched? ==> (o.success <==> exitCode == 0)
  {
    match GetByUrl(reg, b.url)
    case None => Aborted(NoServerMessage)
    case Some(s) =>
      match s.password
      case None => NullDereference
      case Some(password) => Launched(ToolArgs(b, ctx, s, password), exitCode == 0)
  }

  /** The fixed tokens: the Java launcher, `-jar` and the installed jar, `-overwriteapp`, the
      expanded project file, the server's URL and user name, and the password. */
  lemma {:induction false} FixedArgsShape(b: Builder, ctx: BuildContext, s: Server, password: string)
    ensures var a := FixedArgs(b, ctx, s, password);
      && |a| == 12
      && a[0] == Plain(JavaCommand(ctx.jdkHome))
      && a[1] == Plain("-jar") && a[2] == Plain(ctx.installDir + ctx.separator + JarName)
      && a[3] == Plain("-overwriteapp")
      && a[4] == Plain("-project") && a[5] == Plain(ctx.expand(b.projectFile))
      && a[6] == Plain("-url") && a[7] == Plain(s.url)
      && a[8] == Plain("-username") && a[9] == Plain(s.username)
      && a[10] == Plain("-password") && a[11] == Masked(password)
      && (forall i :: 0 <= i < 12 ==> (a[i].masked <==> i == 11))
  {
    var fixed := PlainAll(["-jar", ctx.installDir + ctx.separator + JarName, "-overwriteapp",
                           "-project", ctx.expand(b.projectFile),
                           "-url", s.url,
                           "-username", s.username,
                           "-password"]);
    var a := [Plain(JavaCommand(ctx.jdkHome))] + fixed + [Masked(password)];
    assert forall i :: 1 <= i < 11 ==> a[i] == fixed[i - 1];
  }

  /** The `-target` pair when the target is given, then the `-launchURL` pair when the launch
      URL is given, then the user's option tokens; nothing here is masked. */
  lemma {:induction false} TrailingArgsShape(b: Builder, ctx: BuildContext)
    ensures var a := TrailingArgs(b, ctx);
      var t := if Given(b.target) then 2 else 0;
      var l := if Given(b.launchURL) then 2 else 0;
      var opts := ctx.tokenize(ctx.expand(b.additionalOptions));
      && |a| == t + l + |opts|
      && (Given(b.target) ==> a[0] == Plain("-target") && a[1] == Plain(ctx.expand(b.target.value)))
      && (Given(b.launchURL) ==> a[t] == Plain("-launchURL") && a[t + 1] == Plain(ctx.expand(b.launchURL.value)))
      && a[t + l..] == PlainAll(opts)
      && NoneMasked(a)
  {
    var target := OptionalPair("-target", b.target, ctx.expand);
    var launch := OptionalPair("-launchURL", b.launchURL, ctx.expand);
    var options := PlainAll(ctx.tokenize(ctx.expand(b.additionalOptions)));
    var a := target + launch + options;
    assert a[|target| + |launch|..] == options;
    assert forall i :: |target| <= i < |target| + |launch| ==> a[i] == launch[i - |target|];
    NoneMaskedAppend(target, launch);
    NoneMaskedAppend(target + launch, options);
  }

  /** The tool's command line: the twelve fixed tokens (`FixedArgsShape`), then the optional
      pairs and the user's options (`TrailingArgsShape`); the password is the only masked
      token. */
  lemma {:induction false} ToolArgsShape(b: Builder, ctx: BuildContext, s: Server, password: string)
    ensures var a := ToolArgs(b, ctx, s, password);
      && |a| == 12 + |TrailingArgs(b, ctx)|
      && a[..12] == FixedArgs(b, ctx, s, password)
      && a[12..] == TrailingArgs(b, ctx)
      && a[11] == Masked(password)
      && (forall i :: 0 <= i < |a| ==> (a[i].masked <==> i == 11))
  {
    var front := FixedArgs(b, ctx, s, password);
    var back := TrailingArgs(b, ctx);
    FixedArgsShape(b, ctx, s, password);
    TrailingArgsShape(b, ctx);
    var a := front + back;
    assert a[..12] == front && a[12..] == back;
    forall i | 0 <= i < |a|
      ensures a[i].masked <==> i == 11
    {
      if i < 12 {
        assert a[i] == front[i];
      } else {
        assert a[i] == back[i - 12];
      }
    }
  }

  /** The step never shows the server's password in the build log: whenever it launches the
      tool, the password is passed as exactly one token, and that token is masked. */
  lemma {:induction false} PasswordOnlyMasked(b: Builder, ctx: BuildContext, reg: Registry, exitCode: int)
    requires Perform(b, ctx, reg, exitCode).Launched?
    ensures var o := Perform(b, ctx, reg, exitCode);
      var pw := reg.byUrl[b.url].password.value;
      && o.args[11] == Masked(pw)
      && (forall i :: 0 <= i < |o.args| && o.args[i].masked ==> i == 11)
  {
    var s := reg.byUrl[b.url];
    ToolArgsShape(b, ctx, s, s.password.value);
  }
}
