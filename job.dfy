/**
 * internal/deployment/service: turning a deployment action into the job
 * that carries it out. The job queue, the run functions themselves, the
 * environment and the identifier generator are outside this model; the
 * caller supplies the identifier and the environment lookup.
 */
module Service {
  import opened Wrappers
  import opened DeploymentConfig

  /** The deployment actions: UP creates container resources, DOWN removes them. */
  const Up: string := "UP"
  const Down: string := "DOWN"

  /** The setting both job kinds read their retry policy from. */
  const RetryPolicyEnv: string := "DEPLOYMENT_RETRY_POLICY"

  const ConfigArg: string := "config"
  const CurrContainersArg: string := "currContainers"
  const NewContainersArg: string := "newContainers"

  datatype JobType = Unset | ContainerCreate | ContainerDelete

  /** A container handle; only its identity matters here. */
  datatype Kontainer = Kontainer(id: string)

  /** A value in a job's argument bag. */
  datatype Arg = ConfigValue(config: Config) | Containers(containers: seq<Kontainer>)

  /** Which function the job runs; the functions themselves are not modelled. */
  datatype RunFn = NoRun | CreateContainerResources | DeleteContainerResources

  datatype Job = Job(
    id: string,
    namespace: string,
    jobType: JobType,
    args: map<string, Arg>,
    retryPolicy: nat,
    run: RunFn)

  /** job.Job{} */
  const EmptyJob: Job := Job("", "", Unset, map[], 0, NoRun)

  /**
   * createContainersJob: a ContainerCreate job for the deployment, its
   * argument bag holding the config and two empty container lists.
   */
  function CreateContainersJob(config: Config, id: string, getUIntEnv: string -> nat): (job: Job)
    ensures job.id == id && job.namespace == config.name
    ensures job.jobType == ContainerCreate && job.run == CreateContainerResources
    ensures job.retryPolicy == getUIntEnv(RetryPolicyEnv)
    ensures job.args.Keys == {ConfigArg, CurrContainersArg, NewContainersArg}
    ensures job.args[ConfigArg] == ConfigValue(config)
    ensures job.args[CurrContainersArg] == Containers([]) && job.args[NewContainersArg] == Containers([])
  {
    var retryPolicy := getUIntEnv(RetryPolicyEnv);
    var args := map[ConfigArg := ConfigValue(config),
                    CurrContainersArg := Containers([]),
                    NewContainersArg := Containers([])];
    Job(id, config.name, ContainerCreate, args, retryPolicy, CreateContainerResources)
  }

  /**
   * deleteContainersJob: a ContainerDelete job for the deployment, its
   * argument bag holding the config and one empty container list.
   */
  function DeleteContainersJob(config: Config, id: string, getUIntEnv: string -> nat): (job: Job)
    ensures job.id == id && job.namespace == config.name
    ensures job.jobType == ContainerDelete && job.run == DeleteContainerResources
    ensures job.retryPolicy == getUIntEnv(RetryPolicyEnv)
    ensures job.args.Keys == {ConfigArg, CurrContainersArg}
    ensures job.args[ConfigArg] == ConfigValue(config)
    ensures job.args[CurrContainersArg] == Containers([])
  {
    var retryPolicy := getUIntEnv(RetryPolicyEnv);
    var args := map[ConfigArg := ConfigValue(config), CurrContainersArg := Containers([])];
    Job(id, config.name, ContainerDelete, args, retryPolicy, DeleteContainerResources)
  }

  /** makeDockerDeploymentJob: UP and DOWN have jobs; any other action is an error with the empty job. */
  function MakeDockerDeploymentJob(config: Config, action: string, id: string, getUIntEnv: string -> nat): (Job, Option<Error>)
  {
    if action == Up then (CreateContainersJob(config, id, getUIntEnv), None)
    else if action == Down then (DeleteContainersJob(config, id, getUIntEnv), None)
    else (EmptyJob, Some(UnknownAction(action)))
  }

  /**
   * The dispatch is closed: exactly UP and DOWN succeed, UP with a create
   * job and DOWN with a delete job; every other action yields the empty
   * job and an unknown-action error naming it.
   */
  lemma DispatchIsClosed(config: Config, action: string, id: string, getUIntEnv: string -> nat)
    ensures var (job, err) := MakeDockerDeploymentJob(config, action, id, getUIntEnv);
      && (err == None <==> action == Up || action == Down)
      && (action == Up ==> job.jobType == ContainerCreate && job.run == CreateContainerResources)
      && (action == Down ==> job.jobType == ContainerDelete && job.run == DeleteContainerResources)
      && (err != None ==> job == EmptyJob && err == Some(UnknownAction(action)))
      && (err == None ==> job.namespace == config.name && job.id == id)
  {
    assert Up != Down by {
      assert |Up| != |Down|;
    }
  }

  /**
   * The two job kinds for one config run in the same namespace with the
   * same retry policy and config; the delete job's arguments are the create
   * job's without the new-container list.
   */
  lemma JobKindsAgree(config: Config, id1: string, id2: string, getUIntEnv: string -> nat)
    ensures var create := CreateContainersJob(config, id1, getUIntEnv);
      var delete := DeleteContainersJob(config, id2, getUIntEnv);
      && create.namespace == delete.namespace == config.name
      && create.retryPolicy == delete.retryPolicy
      && create.args[ConfigArg] == delete.args[ConfigArg]
      && delete.args == create.args - {NewContainersArg}
  {
    var create := CreateContainersJob(config, id1, getUIntEnv);
    var delete := DeleteContainersJob(config, id2, getUIntEnv);
    assert NewContainersArg != ConfigArg && NewContainersArg != CurrContainersArg;
    assert (create.args - {NewContainersArg}).Keys == delete.args.Keys;
  }
}
