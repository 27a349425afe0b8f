/**
  What compose loads, and the check that a load differs from an earlier one in
  exactly the target services' images (tagwrite.go). A service's other settings,
  and the project's networks, volumes, secrets and configs, are compared as the JSON
  they marshal to.
 */
module ImageChecks {
  datatype Service = Service(image: string, config: string)

  datatype Project = Project(services: map<string, Service>, rest: string)

  /** `before` with the targets' images, and nothing else changed. */
  function Retargeted(before: Project, targets: map<string, string>): Project {
    Project(map name | name in before.services ::
              before.services[name].(image := if name in targets then targets[name] else before.services[name].image),
            before.rest)
  }

  /** verifyImages: `ok` says no problem was found. */
  method VerifyImages(before: Project, after: Project, targets: map<string, string>) returns (ok: bool)
    ensures ok <==> after == Retargeted(before, targets)
  {
    ok := true;
    var names := after.services.Keys;
    while names != {}
      invariant names <= after.services.Keys
      invariant ok <==> forall name :: name in after.services && name !in names ==> SameService(before, after, targets, name)
      decreases names
    {
      var name :| name in names;
      if name !in before.services {
        ok := false;
      } else {
        var a, b := after.services[name], before.services[name];
        var want := if name in targets then targets[name] else b.image;
        if a.image != want {
          ok := false;
        }
        if a.(image := b.image) != b {
          ok := false;
        }
      }
      names := names - {name};
    }
    ghost var appeared := ok;
    names := before.services.Keys;
    while names != {}
      invariant names <= before.services.Keys
      invariant ok <==> appeared && forall name :: name in before.services && name !in names ==> name in after.services
      decreases names
    {
      var name :| name in names;
      if name !in after.services {
        ok := false;
      }
      names := names - {name};
    }
    ok := ok && before.rest == after.rest;
    SameServices(before, after, targets);
  }

  predicate SameService(before: Project, after: Project, targets: map<string, string>, name: string)
    requires name in after.services
  {
    name in before.services && after.services[name] == Retargeted(before, targets).services[name]
  }

  lemma SameServices(before: Project, after: Project, targets: map<string, string>)
    ensures after == Retargeted(before, targets) <==>
      && (forall name :: name in after.services ==> SameService(before, after, targets, name))
      && (forall name :: name in before.services ==> name in after.services)
      && before.rest == after.rest
  {
    if && (forall name :: name in after.services ==> SameService(before, after, targets, name))
       && (forall name :: name in before.services ==> name in after.services)
    {
      assert after.services == Retargeted(before, targets).services;
    }
  }
}
