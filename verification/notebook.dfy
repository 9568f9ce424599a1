/** The string work of `_run_jupyter_notebook` in `dev_machine.py`: the registry host of an
    account and region, the split of `name:tag` into repository and tag, the image reference
    the container is run from, and the `DOCKER_HOST` that points the client at the machine. */
module Notebook {
  import opened Wrappers
  import opened PyStr
  import opened SshHost

  /** `f"{account}.dkr.ecr.{region}.amazonaws.com"` */
  function Registry(account: string, region: string): string {
    account + ".dkr.ecr." + region + ".amazonaws.com"
  }

  /** The repository pulled and the tag pulled from it. */
  datatype Image = Image(repository: string, tag: string)

  /** `c_name, c_tag = container_name.split(':')` and the full repository name: the split
      raises ValueError (None here) unless the name has exactly one `:`. */
  function ResolveImage(account: string, region: string, container: string): (r: Option<Image>)
    ensures r.Some? <==> multiset(container)[':'] == 1
    ensures r.Some? ==> ':' !in r.value.tag
    ensures r.Some? ==> r.value.repository + ":" + r.value.tag
                        == Registry(account, region) + "/" + container
  {
    var parts := Split(container, ':');
    SplitCount(container, ':');
    if |parts| == 2 then
      assert parts[1..] == [parts[1]];
      assert container == parts[0] + [':'] + parts[1];
      Some(Image(Registry(account, region) + "/" + parts[0], parts[1]))
    else None
  }

  /** `":".join([container_full_name, c_tag])`: the image the container is run from. */
  function RunReference(img: Image): string {
    Join([img.repository, img.tag], ':')
  }

  /** The run reference is the registry, a `/`, and the container name as given. */
  lemma RunReferenceIsRegistryAndName(account: string, region: string, container: string)
    requires ResolveImage(account, region, container).Some?
    ensures RunReference(ResolveImage(account, region, container).value)
            == Registry(account, region) + "/" + container
  {
    var img := ResolveImage(account, region, container).value;
    assert [img.repository, img.tag][1..] == [img.tag];
    assert Join([img.tag], ':') == img.tag;
    assert RunReference(img) == img.repository + [':'] + img.tag;
    assert img.repository + ":" + img.tag == img.repository + [':'] + img.tag;
  }

  /** A name and a tag without `:` are split back apart. */
  lemma ResolveRoundTrip(account: string, region: string, name: string, tag: string)
    requires ':' !in name && ':' !in tag
    ensures ResolveImage(account, region, name + ":" + tag)
            == Some(Image(Registry(account, region) + "/" + name, tag))
  {
    assert name + ":" + tag == name + [':'] + tag;
    SplitOnlySeparator(name, ':', tag);
  }

  /** `data_explorer:prod`, the container `create_instance_pull_start_server` starts unless
      told otherwise, is pulled as `prod` from the `data_explorer` repository. */
  lemma DefaultContainerResolves(account: string, region: string, container: string,
                                 name: string, tag: string)
    requires name == "data_explorer" && tag == "prod" && container == name + ":" + tag
    ensures ResolveImage(account, region, container)
            == Some(Image(Registry(account, region) + "/" + name, tag))
  {
    assert ':' !in name && ':' !in tag;
    ResolveRoundTrip(account, region, name, tag);
  }

  /** `os.environ["DOCKER_HOST"] = f"ssh://{user}@{host}"`: the Docker client reaches the
      machine as `user` at `host`, since splitting the variable gives both back, with no
      port. */
  function DockerHost(user: string, host: string): (r: string)
    ensures ':' !in user && ':' !in host && '@' !in host ==>
              SshSplit(r) == SshTarget(user, host, "")
  {
    var r := Scheme + user + "@" + host;
    if ':' !in user && ':' !in host && '@' !in host then
      SchemeUserHostRoundTrip(user, host);
      r
    else r
  }
}
