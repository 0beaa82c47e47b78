/** The REST access predicates: group-based permission, the two
    method-only permissions, and the subscriber check. */
module Permissions {

  import opened Wrappers
  import ServerModels

  /** An auth group row; two rows are the same group when they are equal */
  datatype Group = Group(id: nat, name: string)

  /** The requesting user: anonymous, or a member with its groups and its
      optional subscriber profile */
  datatype Requester =
    | Anonymous
    | Member(groups: seq<Group>, subscriber: Option<ServerModels.Subscriber>)

  datatype Request = Request(httpMethod: string, user: Requester)

  /** The groups a requester belongs to; an anonymous user belongs to none */
  function GroupsOf(u: Requester): seq<Group> {
    match u
    case Anonymous => []
    case Member(groups, _) => groups
  }

  /** `GroupPermission(groups)`: the groups in the database whose name is
      listed, or no group at all when the list is `None` */
  function AllowedGroups(names: Option<seq<string>>, db: set<Group>): (r: set<Group>)
    ensures r <= db
    ensures forall g :: g in r <==> g in db && names.Some? && g.name in names.value
  {
    match names
    case None => {}
    case Some(ns) => set g | g in db && g.name in ns
  }

  /** `has_permission`: walks the user's groups as `any` does */
  method HasPermission(allowed: set<Group>, req: Request) returns (ok: bool)
    ensures ok <==> exists i :: 0 <= i < |GroupsOf(req.user)| && GroupsOf(req.user)[i] in allowed
  {
    var groups := GroupsOf(req.user);
    var i := 0;
    while i < |groups|
      invariant 0 <= i <= |groups|
      invariant forall j :: 0 <= j < i ==> groups[j] !in allowed
    {
      if groups[i] in allowed {
        return true;
      }
      i := i + 1;
    }
    return false;
  }

  /** The permission as a set intersection: some group of the user is allowed */
  predicate Permits(allowed: set<Group>, req: Request) {
    (set i | 0 <= i < |GroupsOf(req.user)| :: GroupsOf(req.user)[i]) * allowed != {}
  }

  /** The loop and the intersection agree */
  lemma PermitsIffShared(allowed: set<Group>, req: Request)
    ensures Permits(allowed, req) <==>
            exists i :: 0 <= i < |GroupsOf(req.user)| && GroupsOf(req.user)[i] in allowed
  {
    var gs := GroupsOf(req.user);
    var s := set i | 0 <= i < |gs| :: gs[i];
    if exists i :: 0 <= i < |gs| && gs[i] in allowed {
      var i :| 0 <= i < |gs| && gs[i] in allowed;
      assert gs[i] in s * allowed;
    } else {
      forall g | g in s ensures g !in allowed {
        var i :| 0 <= i < |gs| && gs[i] == g;
      }
      assert s * allowed == {};
    }
  }

  /** Built with `groups=None`, the permission refuses everybody */
  lemma NoGroupsRefusesAll(db: set<Group>, req: Request)
    ensures !Permits(AllowedGroups(None, db), req)
  {
  }

  /** A user in no group is refused whatever is allowed */
  lemma GrouplessUserIsRefused(allowed: set<Group>, req: Request)
    requires GroupsOf(req.user) == []
    ensures !Permits(allowed, req)
  {
    PermitsIffShared(allowed, req);
  }

  /** Allowing more group names, or putting the user in more groups, never
      turns a permitted request into a refused one */
  lemma PermitsMonotone(names: seq<string>, moreNames: seq<string>, db: set<Group>,
                        groups: seq<Group>, moreGroups: seq<Group>, m: string,
                        sub: Option<ServerModels.Subscriber>)
    requires Permits(AllowedGroups(Some(names), db), Request(m, Member(groups, sub)))
    ensures Permits(AllowedGroups(Some(names + moreNames), db), Request(m, Member(groups + moreGroups, sub)))
  {
    var req := Request(m, Member(groups, sub));
    var req' := Request(m, Member(groups + moreGroups, sub));
    PermitsIffShared(AllowedGroups(Some(names), db), req);
    var i :| 0 <= i < |groups| && groups[i] in AllowedGroups(Some(names), db);
    assert (groups + moreGroups)[i] == groups[i];
    assert groups[i].name in names + moreNames;
    assert GroupsOf(req'.user) == groups + moreGroups;
    assert GroupsOf(req'.user)[i] in AllowedGroups(Some(names + moreNames), db);
    PermitsIffShared(AllowedGroups(Some(names + moreNames), db), req');
  }

  /** A member of a group whose name is listed, and which exists in the
      database, is permitted */
  lemma ListedGroupPermits(names: seq<string>, db: set<Group>, req: Request, i: nat)
    requires i < |GroupsOf(req.user)| && GroupsOf(req.user)[i] in db
    requires GroupsOf(req.user)[i].name in names
    ensures Permits(AllowedGroups(Some(names), db), req)
  {
    PermitsIffShared(AllowedGroups(Some(names), db), req);
  }

  /** `UnauthenticatedPost` */
  function PostOnly(req: Request): (ok: bool)
    ensures ok <==> req.httpMethod == "POST"
  {
    req.httpMethod in ["POST"]
  }

  /** `UnauthenticatedGet` */
  function GetOnly(req: Request): (ok: bool)
    ensures ok <==> req.httpMethod == "GET"
  {
    req.httpMethod in ["GET"]
  }

  /** No request passes both method permissions */
  lemma PostAndGetDisjoint(req: Request)
    ensures !(PostOnly(req) && GetOnly(req))
  {
  }

  /** `SubscribePermission`: the user has a subscriber profile; an anonymous
      user has none */
  function Subscribed(req: Request): (ok: bool)
    ensures ok <==> req.user.Member? && req.user.subscriber.Some?
  {
    match req.user
    case Anonymous => false
    case Member(_, sub) => sub.Some?
  }
}
