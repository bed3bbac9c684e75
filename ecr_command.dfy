/** pkg/runner/ecr_command.go: from an ECR authorisation token to a `docker login` command. */
module EcrCommand {
  import opened Wrappers
  import opened Errors
  import opened GoStrings

  /** The credentials inside a decoded token, and Go's error return. */
  datatype LoginInformation = LoginInformation(username: string, password: string, err: Option<Error>)

  /**
   * getLoginInformationFromToken: the token must split on ':' into exactly two
   * pieces; otherwise "token is wrong" with two empty strings.
   */
  function GetLoginInformationFromToken(token: string): (info: LoginInformation)
    ensures info.err.None? <==> Count(token, ':') == 1
    ensures info.err.Some? ==> info == LoginInformation("", "", Some(TokenWrong))
    ensures info.err.None? ==> info.username + ":" + info.password == token
    ensures info.err.None? ==> ':' !in info.username && ':' !in info.password
  {
    var splited := Split(token, ':');
    if |splited| != 2 then LoginInformation("", "", Some(TokenWrong))
    else
      SplitPartsFree(token, ':');
      assert token == splited[0] + ":" + splited[1] by {
        JoinSplit(token, ':');
        assert splited[1..] == [splited[1]];
      }
      LoginInformation(splited[0], splited[1], None)
  }

  /** The credentials a `user:password` token carries come back out of it. */
  lemma TokenRoundTrip(username: string, password: string)
    requires ':' !in username && ':' !in password
    ensures GetLoginInformationFromToken(username + ":" + password) == LoginInformation(username, password, None)
  {
    var token := username + ":" + password;
    CountAppend(username + ":", password, ':');
    CountAppend(username, ":", ':');
    var info := GetLoginInformationFromToken(token);
    SplitAtFirst(username, ':', password);
    SplitNoSep(password, ':');
  }

  /** makeDockerLoginCommand: `docker login -u <username> -p <password> <endpoint>`. */
  function MakeDockerLoginCommand(username: string, password: string, endpoint: string): (cmd: string)
    ensures HasPrefix(cmd, "docker login -u ")
    ensures |cmd| == |username| + |password| + |endpoint| + 21
    ensures cmd[|cmd| - |endpoint|..] == endpoint
  {
    "docker login -u " + username + " -p " + password + " " + endpoint
  }

  /**
   * Read back as a shell reads words: when neither credential holds a space,
   * splitting the command on spaces gives the six words of the login and then
   * the endpoint's own words.
   */
  lemma LoginCommandWords(username: string, password: string, endpoint: string)
    requires ' ' !in username && ' ' !in password
    ensures Split(MakeDockerLoginCommand(username, password, endpoint), ' ')
            == ["docker", "login", "-u", username, "-p", password] + Split(endpoint, ' ')
  {
    var t3 := username + " " + ("-p" + " " + (password + " " + endpoint));
    var words := [username] + (["-p"] + ([password] + Split(endpoint, ' ')));
    CredentialWords(username, password, endpoint);
    assert MakeDockerLoginCommand(username, password, endpoint) == "docker" + " " + ("login" + " " + ("-u" + " " + t3));
    CommandWords(t3, words);
    SixWords("docker", "login", "-u", username, "-p", password, Split(endpoint, ' '));
  }

  /** The part of the command after `-u`. */
  lemma CredentialWords(username: string, password: string, endpoint: string)
    requires ' ' !in username && ' ' !in password
    ensures Split(username + " " + ("-p" + " " + (password + " " + endpoint)), ' ')
            == [username] + (["-p"] + ([password] + Split(endpoint, ' ')))
  {
    var t5 := password + " " + endpoint;
    var t4 := "-p" + " " + t5;
    SplitWord(password, endpoint, Split(endpoint, ' '));
    SplitWord("-p", t5, [password] + Split(endpoint, ' '));
    SplitWord(username, t4, ["-p"] + ([password] + Split(endpoint, ' ')));
  }

  /** The three fixed words in front of the credentials. */
  lemma CommandWords(t3: string, words: seq<string>)
    requires Split(t3, ' ') == words
    ensures Split("docker" + " " + ("login" + " " + ("-u" + " " + t3)), ' ') == ["docker"] + (["login"] + (["-u"] + words))
  {
    var t2 := "-u" + " " + t3;
    var t1 := "login" + " " + t2;
    SplitWord("-u", t3, words);
    SplitWord("login", t2, ["-u"] + words);
    SplitWord("docker", t1, ["login"] + (["-u"] + words));
  }

  /** One word without a space, then a space, then the rest: the word comes off first. */
  lemma SplitWord(word: string, tail: string, rest: seq<string>)
    requires ' ' !in word && Split(tail, ' ') == rest
    ensures Split(word + " " + tail, ' ') == [word] + rest
  {
    SplitAtFirst(word, ' ', tail);
  }

  lemma SixWords(a: string, b: string, c: string, d: string, e: string, f: string, rest: seq<string>)
    ensures [a] + ([b] + ([c] + ([d] + ([e] + ([f] + rest))))) == [a, b, c, d, e, f] + rest
  {
  }

  /**
   * createEcrLoginCommand, with the base64 decoder as a parameter: a decoding
   * error, or the decoded token's error, gives the empty string and that
   * error; otherwise the login command built from the token's credentials.
   */
  function CreateEcrLoginCommand(token: string, endpoint: string, decode: string -> Result<string, Error>)
    : (r: Result<string, Error>)
    ensures decode(token).Err? ==> r == Err(decode(token).error)
    ensures decode(token).Ok? && Count(decode(token).value, ':') != 1 ==> r == Err(TokenWrong)
    ensures r.Ok? <==> decode(token).Ok? && Count(decode(token).value, ':') == 1
    ensures r.Ok? ==> exists username, password ::
              ':' !in username && ':' !in password && decode(token).value == username + ":" + password
              && r.value == MakeDockerLoginCommand(username, password, endpoint)
  {
    match decode(token)
    case Err(e) => Err(e)
    case Ok(decodedToken) =>
      var info := GetLoginInformationFromToken(decodedToken);
      if info.err.Some? then Err(info.err.value)
      else Ok(MakeDockerLoginCommand(info.username, info.password, endpoint))
  }
}
